/** How the judge reads one record, field by field, and what a passing suite therefore contains. */
module JudgeReading {
  import opened Json
  import opened Options
  import opened JudgeSpec
  import opened Judge

  // ---- words ----

  predicate Alike(a: char, b: char) {
    a == b || ('A' <= a <= 'Z' && b as int == a as int + 32)
  }

  /** The result field reads as a word of small letters, in either case of each. */
  ghost predicate Says(rec: Value, word: string) {
    && rec.Obj? && "result" in rec.fields && rec.fields["result"].Str?
    && var s := rec.fields["result"].s; |s| == |word| && forall i | 0 <= i < |s| :: Alike(s[i], word[i])
  }

  lemma {:induction false} LowerIs(s: string)
    ensures |Lower(s)| == |s| && forall i | 0 <= i < |s| :: Lower(s)[i] == LowerChar(s[i])
  {
    if s != "" {
      LowerIs(s[1..]);
    }
  }

  lemma {:induction false} SaysExactly(rec: Value, word: string)
    requires word != "" && forall i | 0 <= i < |word| :: 'a' <= word[i] <= 'z'
    ensures ResultOf(rec) == word <==> Says(rec, word)
  {
    if rec.Obj? && "result" in rec.fields && rec.fields["result"].Str? {
      var s := rec.fields["result"].s;
      LowerIs(s);
      hide Lower;
      if Says(rec, word) {
        assert forall i | 0 <= i < |s| :: Lower(s)[i] == word[i];
      }
      if Lower(s) == word {
        assert forall i | 0 <= i < |s| :: LowerChar(s[i]) == word[i];
      }
    }
  }

  /** The blanks: the ASCII ones, the four separators, and the other white space of Unicode. */
  lemma {:induction false} SpaceExactly(c: char)
    ensures Space(c) <==> c as int in {9, 10, 11, 12, 13, 28, 29, 30, 31, 32, 0x85, 0xA0, 0x1680,
                                       0x2000, 0x2001, 0x2002, 0x2003, 0x2004, 0x2005, 0x2006, 0x2007, 0x2008, 0x2009, 0x200A,
                                       0x2028, 0x2029, 0x202F, 0x205F, 0x3000}
  {
  }

  // ---- one record ----

  ghost predicate Has(rec: Value, key: string) {
    rec.Obj? && key in rec.fields && rec.fields[key] != Null
  }

  /** A text with a character that is no blank. */
  ghost predicate Written(rec: Value, key: string) {
    Has(rec, key) && rec.fields[key].Str? && exists i :: 0 <= i < |rec.fields[key].s| && !Space(rec.fields[key].s[i])
  }

  /** An older field may repeat the result, and nothing else. */
  ghost predicate LegacyAgrees(rec: Value)
    requires rec.Obj?
  {
    "pass" in rec.fields ==>
      || (rec.fields["pass"] == Bool(true) && !Says(rec, "fail") && !Says(rec, "pending"))
      || (rec.fields["pass"] == Bool(false) && !Says(rec, "pass"))
  }

  /** An actor is named by slot and identity. */
  ghost predicate Named(actor: Value) {
    actor.Obj? && "slot" in actor.fields && Has(actor, "identity") && !Void(actor.fields["identity"])
  }

  /** What counts as nothing: null, false, zero and what is empty. */
  ghost predicate Void(v: Value) {
    || v == Null || v == Bool(false) || v == Num(Whole(0)) || v == Str("") || v == Arr([]) || v == Obj(map[])
    || (v.Num? && v.n.Other? && LiteralReal(v.n.literal) == 0.0)
  }

  lemma {:induction false} VoidExactly(v: Value)
    ensures Truthy(v) <==> !Void(v)
  {
    hide LiteralReal;
  }

  /** A person's pass shows what was expected and seen, who took part, and when and where it was recorded. */
  ghost predicate Attested(rec: Value)
    requires rec.Obj?
  {
    && Has(rec, "expected") && Has(rec, "actual")
    && rec.fields["expected"] !in {Str(""), Arr([]), Obj(map[])} && rec.fields["actual"] !in {Str(""), Arr([]), Obj(map[])}
    && Has(rec, "capture_path") && !Void(rec.fields["capture_path"]) && Has(rec, "timestamp") && !Void(rec.fields["timestamp"])
    && Has(rec, "actors") && rec.fields["actors"].Arr? && rec.fields["actors"].items != []
    && forall i | 0 <= i < |rec.fields["actors"].items| :: Named(rec.fields["actors"].items[i])
  }

  /** A record that can be used: one of the three results, not contradicted by the older field, with an expected and an actual outcome,
      with evidence unless it is pending, and attested if a person passes it. */
  ghost predicate Usable(rec: Value) {
    && rec.Obj?
    && (Says(rec, "pass") || Says(rec, "fail") || Says(rec, "pending"))
    && LegacyAgrees(rec)
    && Has(rec, "expected") && Has(rec, "actual")
    && (!Says(rec, "pending") ==> Written(rec, "evidence"))
    && (Says(rec, "pass") && "producer" in rec.fields && rec.fields["producer"] == Str("human") ==> Attested(rec))
  }

  lemma {:induction false} AttestedExactly(rec: Value)
    requires rec.Obj? && Has(rec, "expected") && Has(rec, "actual")
    ensures HumanEvidence(rec) <==> Attested(rec)
  {
    VoidExactly(Get(rec, "capture_path"));
    VoidExactly(Get(rec, "timestamp"));
    if Get(rec, "actors").Arr? {
      forall i | 0 <= i < |Get(rec, "actors").items| ensures GoodActor(Get(rec, "actors").items[i]) <==> Named(Get(rec, "actors").items[i]) {
        VoidExactly(Get(Get(rec, "actors").items[i], "identity"));
      }
    }
    hide Truthy;
  }

  lemma {:induction false} ThreeWords(rec: Value)
    ensures ResultOf(rec) == "pass" <==> Says(rec, "pass")
    ensures ResultOf(rec) == "fail" <==> Says(rec, "fail")
    ensures ResultOf(rec) == "pending" <==> Says(rec, "pending")
    ensures Says(rec, "pass") ==> !Says(rec, "fail") && !Says(rec, "pending")
    ensures Says(rec, "fail") ==> !Says(rec, "pending")
  {
    SaysExactly(rec, "pass");
    SaysExactly(rec, "fail");
    SaysExactly(rec, "pending");
    assert |"fail"| != |"pending"|;
    assert "pass"[0] != "fail"[0];
  }

  /** What a record says of its check: it passes if it says so and the outcome is the expected one; a pass with another outcome fails. */
  lemma {:induction false} VerdictExactly(rec: Value)
    ensures SubcheckVerdict(rec) == Pass <==> Usable(rec) && Says(rec, "pass") && rec.fields["expected"] == rec.fields["actual"]
    ensures SubcheckVerdict(rec) == Verdict.Fail <==>
            Usable(rec) && (Says(rec, "fail") || (Says(rec, "pass") && rec.fields["expected"] != rec.fields["actual"]))
    ensures SubcheckVerdict(rec) == Pending <==> Usable(rec) && Says(rec, "pending")
    ensures SubcheckVerdict(rec) == Invalid <==> !Usable(rec)
  {
    hide Says, ResultOf, Attested, HumanEvidence;
    ThreeWords(rec);
    if rec.Obj? && Has(rec, "expected") && Has(rec, "actual") {
      AttestedExactly(rec);
    }
  }

  // ---- admission ----

  ghost predicate Field(rec: Value, key: string, v: Value) {
    rec.Obj? && key in rec.fields && rec.fields[key] == v
  }

  /** A record without a suite is of suite A, and a suite is named in either case. */
  ghost predicate OfSuite(rec: Value, suite: string) {
    if Has(rec, "suite") && !Void(rec.fields["suite"]) then
      if rec.fields["suite"].Str? then Upper(rec.fields["suite"].s) == suite else suite == ""
    else suite == "A"
  }

  /** Bound to no artifact, or by 64 hexadecimal digits to the one of the receipt if that names one. */
  ghost predicate BoundTo(rec: Value, artifact: Value) {
    Has(rec, "artifact_identity") && rec.fields["artifact_identity"] != Str("") ==>
      var b := rec.fields["artifact_identity"];
      && b.Str? && |b.s| == 64 && (forall i | 0 <= i < 64 :: '0' <= b.s[i] <= '9' || 'a' <= b.s[i] <= 'f')
      && (Void(artifact) || b == artifact)
  }

  /** The report of how the process ended stands apart from the checks. */
  ghost predicate OfProcess(rec: Value) {
    Field(rec, "kind", Str("diagnostic")) && Field(rec, "case", Str("process_terminal")) && Field(rec, "producer", Str("native"))
  }

  /** A record of this run and of nothing else. */
  ghost predicate OfRun(ctx: Context, rec: Value) {
    && rec.Obj? && Field(rec, "schema", Num(Whole(1))) && OfSuite(rec, ctx.suite)
    && (if "run_id" in rec.fields then rec.fields["run_id"] else Null) == ctx.runId
    && (if "source_revision" in rec.fields then rec.fields["source_revision"] else Null) == ctx.revision
    && BoundTo(rec, if ctx.receipt.Some? && Has(ctx.receipt.value, "artifact_identity") then ctx.receipt.value.fields["artifact_identity"] else Null)
  }

  lemma {:induction false} UpperIs(s: string)
    ensures |Upper(s)| == |s| && forall i | 0 <= i < |s| :: Upper(s)[i] == if 'a' <= s[i] <= 'z' then s[i] - 32 as char else s[i]
  {
    if s != "" {
      UpperIs(s[1..]);
    }
  }

  lemma {:induction false} ProcessExactly(rec: Value)
    ensures TerminalDiagnostic(rec) <==> OfProcess(rec)
  {
  }

  lemma {:induction false} OfRunExactly(ctx: Context, rec: Value)
    ensures OfRun(ctx, rec) <==>
            && rec.Obj? && Get(rec, "schema") == Num(Whole(SCHEMA)) && SuiteOf(rec) == ctx.suite
            && Get(rec, "run_id") == ctx.runId && Get(rec, "source_revision") == ctx.revision && Bound(ctx, rec)
  {
    hide Truthy, Void, Upper;
    VoidExactly(Get(rec, "suite"));
    FieldTruthy(rec, "suite");
    VoidExactly(ArtifactOf(ctx));
    if ctx.receipt.Some? {
      FieldTruthy(ctx.receipt.value, "artifact_identity");
    }
    VoidNull();
  }

  lemma {:induction false} VoidNull()
    ensures Void(Null)
  {
  }

  lemma {:induction false} FieldTruthy(rec: Value, key: string)
    ensures Truthy(Get(rec, key)) <==> Has(rec, key) && !Void(rec.fields[key])
  {
    VoidExactly(Get(rec, key));
    hide Truthy;
  }

  /** Which records are filed under a check, which stand apart, and that the others are rejected. */
  lemma {:induction false} AdmittedExactly(ctx: Context, rec: Value, key: Subcheck)
    ensures Admit(ctx, rec) == Admitted(key) <==>
            && OfRun(ctx, rec) && !OfProcess(rec)
            && Field(rec, "case", Str(key.case_)) && key.case_ in ctx.cases
            && Field(rec, "subcheck", Str(key.name))
            && Field(rec, "producer", Str(key.producer)) && (key.producer == "native" || key.producer == "js" || key.producer == "human")
            && key in ctx.required
            && !(key in ctx.rules && !Field(rec, "result", Str("pending")) && ctx.details(rec, ctx.rules[key]))
    ensures Admit(ctx, rec) == Diagnostic <==> OfRun(ctx, rec) && OfProcess(rec) && Usable(rec)
  {
    hide Usable, SubcheckVerdict, Upper, OfRun, OfProcess;
    VerdictExactly(rec);
    OfRunExactly(ctx, rec);
    ProcessExactly(rec);
  }

  // ---- what a record ends ----

  ghost predicate Passes(rec: Value) {
    Usable(rec) && Says(rec, "pass") && rec.fields["expected"] == rec.fields["actual"]
  }

  ghost predicate Fails(rec: Value) {
    Usable(rec) && (Says(rec, "fail") || (Says(rec, "pass") && rec.fields["expected"] != rec.fields["actual"]))
  }

  /** A failure ends a check at once; a pass does if it names an artifact, a runtime identity was supplied, and game data that the check
      rests on is proved. */
  lemma {:induction false} FindingExactly(ctx: Context, key: Subcheck, rec: Value)
    ensures FindingOf(ctx, key, rec) == Ended(true) <==> Fails(rec)
    ensures FindingOf(ctx, key, rec) == Ended(false) <==>
            && Passes(rec) && (key.name in ctx.gamedata ==> ctx.provenance(rec) == Proved)
            && ctx.receipt.Some? && Has(rec, "artifact_identity") && !Void(rec.fields["artifact_identity"])
    ensures FindingOf(ctx, key, rec) == Unusable <==>
            !Usable(rec) || (Passes(rec) && key.name in ctx.gamedata && ctx.provenance(rec) == Refuted)
  {
    hide Usable, SubcheckVerdict, Truthy, Void;
    VerdictExactly(rec);
    FieldTruthy(rec, "artifact_identity");
  }

  /** Which records a join compares: admitted ones of a joined check that say exactly "pass" and name an artifact. */
  lemma {:induction false} GroupExactly(ctx: Context, rec: Value, g: Group)
    ensures GroupOf(ctx, rec) == Some(g) <==>
            && Admit(ctx, rec).Admitted?
            && var key := Admit(ctx, rec).key;
               && key.case_ == g.case_ && key in ctx.rules && ctx.rules[key].join == g.join != ""
               && Field(rec, "result", Str("pass")) && Has(rec, "artifact_identity") && !Void(rec.fields["artifact_identity"])
  {
    hide Admit, Truthy, Void;
    FieldTruthy(rec, "artifact_identity");
  }

  // ---- a passing suite ----

  /** One record ends the check, by passing it; every other report of it leaves it open. */
  ghost predicate Proves(ctx: Context, recs: set<Value>, key: Subcheck, rec: Value) {
    && Reports(ctx, recs, key, rec) && FindingOf(ctx, key, rec) == Ended(false)
    && forall other | Reports(ctx, recs, key, other) :: other == rec || FindingOf(ctx, key, other) == Open
  }

  ghost predicate Proven(ctx: Context, recs: set<Value>, key: Subcheck) {
    exists rec :: Proves(ctx, recs, key, rec)
  }

  lemma {:induction false} ProvedExactly(ctx: Context, recs: set<Value>, key: Subcheck)
    ensures Settled(ctx, recs, key) && !KeyBroken(ctx, recs, key) <==> Proven(ctx, recs, key)
  {
    hide Admit, FindingOf;
    if Settled(ctx, recs, key) && !KeyBroken(ctx, recs, key) {
      var rec :| Ends(ctx, recs, key, rec);
      forall other | Reports(ctx, recs, key, other) ensures other == rec || FindingOf(ctx, key, other) == Open {
        if FindingOf(ctx, key, other).Ended? {
          assert Ends(ctx, recs, key, other);
        }
      }
      assert Proves(ctx, recs, key, rec);
    }
    if rec :| Proves(ctx, recs, key, rec) {
      assert Ends(ctx, recs, key, rec);
      forall a | Reports(ctx, recs, key, a) ensures FindingOf(ctx, key, a) != Unusable && FindingOf(ctx, key, a) != Ended(true) {
        assert a == rec || FindingOf(ctx, key, a) == Open;
      }
      forall a, b | Ends(ctx, recs, key, a) && Ends(ctx, recs, key, b) ensures a == b {
        assert Reports(ctx, recs, key, a) && Reports(ctx, recs, key, b);
      }
    }
  }

  /** A suite passes exactly if everything could be read, a valid runtime identity was supplied, no record was rejected, no join
      disagrees, and each required check is proved by one record. */
  lemma {:induction false} PassExactly(ctx: Context, recs: set<Value>, prior: bool)
    requires WellFormedSuite(ctx)
    ensures ExitOf(ctx, recs, prior) == 0 <==>
            && !prior && ctx.receipt.Some? && ctx.receiptValid
            && (forall rec | rec in recs :: Admit(ctx, rec) != Rejected)
            && (forall g :: !JoinBroken(ctx, recs, g))
            && forall i | 0 <= i < |ctx.required| :: Proven(ctx, recs, ctx.required[i])
  {
    hide Admit, FindingOf, JoinBroken, KeyBroken, Proven, Settled, CaseMissing;
    forall i | 0 <= i < |ctx.required|
      ensures Settled(ctx, recs, ctx.required[i]) && !KeyBroken(ctx, recs, ctx.required[i]) <==> Proven(ctx, recs, ctx.required[i]) {
      ProvedExactly(ctx, recs, ctx.required[i]);
    }
    var i := SomeRequired(ctx, ctx.cases[0]);
    if ExitOf(ctx, recs, prior) == 0 {
      PassNeedsIdentity(ctx, recs, prior, i);
    } else if forall i | 0 <= i < |ctx.required| :: Proven(ctx, recs, ctx.required[i]) {
      forall c | c in ctx.cases ensures !CaseMissing(ctx, recs, c) {
        ProvedPresent(ctx, recs, c);
      }
    }
  }

  lemma {:induction false} SomeRequired(ctx: Context, c: string) returns (i: nat)
    requires WellFormedSuite(ctx) && c in ctx.cases
    ensures i < |ctx.required| && ctx.required[i].case_ == c
  {
    i :| 0 <= i < |ctx.required| && ctx.required[i].case_ == c;
  }

  lemma {:induction false} ProvedPresent(ctx: Context, recs: set<Value>, c: string)
    requires WellFormedSuite(ctx) && c in ctx.cases
    requires forall i | 0 <= i < |ctx.required| :: Proven(ctx, recs, ctx.required[i])
    ensures !CaseMissing(ctx, recs, c)
  {
    hide Admit, FindingOf, Proves;
    var i := SomeRequired(ctx, c);
    var rec :| Proves(ctx, recs, ctx.required[i], rec);
    ProvesReports(ctx, recs, ctx.required[i], rec);
  }

  lemma {:induction false} ProvesReports(ctx: Context, recs: set<Value>, key: Subcheck, rec: Value)
    requires Proves(ctx, recs, key, rec)
    ensures Reports(ctx, recs, key, rec)
  {
    hide Admit, FindingOf;
  }

  /** A case passes exactly if it has records and each of its checks is proved; it is invalid exactly if it has none, or a check of its
      has an unusable record or two that end it; short of that one failure fails it. */
  lemma {:induction false} CaseExactly(ctx: Context, recs: set<Value>, c: string)
    ensures StatusOf(ctx, recs, c) == CasePass <==>
            !CaseMissing(ctx, recs, c) && forall i | 0 <= i < |ctx.required| && ctx.required[i].case_ == c :: Proven(ctx, recs, ctx.required[i])
    ensures StatusOf(ctx, recs, c) == CaseInvalid <==>
            || CaseMissing(ctx, recs, c)
            || exists i :: 0 <= i < |ctx.required| && ctx.required[i].case_ == c
                           && (SomeUnusable(ctx, recs, ctx.required[i]) || Contradicted(ctx, recs, ctx.required[i]))
    ensures StatusOf(ctx, recs, c) == CaseFail <==>
            && StatusOf(ctx, recs, c) != CaseInvalid
            && exists i :: 0 <= i < |ctx.required| && ctx.required[i].case_ == c && SomeFailed(ctx, recs, ctx.required[i])
  {
    hide CaseMissing, SomeUnusable, Contradicted, SomeFailed, Settled, Proven;
    forall i | 0 <= i < |ctx.required|
      ensures Settled(ctx, recs, ctx.required[i]) && !KeyBroken(ctx, recs, ctx.required[i]) <==> Proven(ctx, recs, ctx.required[i]) {
      ProvedExactly(ctx, recs, ctx.required[i]);
    }
  }

  /** A suite that does not pass fails exactly if something is wrong that is there, or a case has no records; otherwise it waits. */
  lemma {:induction false} FailExactly(ctx: Context, recs: set<Value>, prior: bool)
    ensures ExitOf(ctx, recs, prior) == 1 <==>
            || prior || (ctx.receipt.Some? && !ctx.receiptValid)
            || (exists rec :: rec in recs && Admit(ctx, rec) == Rejected)
            || (exists g :: JoinBroken(ctx, recs, g))
            || (exists i :: 0 <= i < |ctx.required| && KeyBroken(ctx, recs, ctx.required[i]))
            || (exists c :: c in ctx.cases && CaseMissing(ctx, recs, c))
    ensures ExitOf(ctx, recs, prior) == 0 || ExitOf(ctx, recs, prior) == 1 || ExitOf(ctx, recs, prior) == 2
  {
    hide Admit, JoinBroken, KeyBroken, CaseMissing;
  }
}
