/** The judge as it runs: records filed by case, joins gathered, histories walked in order. */
module Judge {
  import opened Json
  import opened JudgeSpec
  import opened Options

  datatype Status = CasePass | CaseFail | CasePending | CaseInvalid

  ghost function SetOf(s: seq<Value>): set<Value> {
    set rec | rec in s
  }

  // ---- one check's history ----

  /** The records of one check, in the order they came. */
  ghost predicate IsHistory(ctx: Context, recs: set<Value>, key: Subcheck, history: seq<Value>) {
    forall rec :: rec in history <==> Reports(ctx, recs, key, rec)
  }

  /** Of the first `n` records: whether one is unusable or contradicts another, whether one failed, and the last to end the check. */
  ghost predicate Walked(ctx: Context, key: Subcheck, history: seq<Value>, n: nat, invalid: bool, failed: bool, terminal: Option<Value>)
    requires n <= |history|
  {
    && (invalid <==>
          || (exists i :: 0 <= i < n && FindingOf(ctx, key, history[i]) == Unusable)
          || (exists i, j :: 0 <= i < n && 0 <= j < n && history[i] != history[j]
                             && FindingOf(ctx, key, history[i]).Ended? && FindingOf(ctx, key, history[j]).Ended?))
    && (failed <==> exists i :: 0 <= i < n && FindingOf(ctx, key, history[i]) == Ended(true))
    && (terminal.None? <==> forall i | 0 <= i < n :: !FindingOf(ctx, key, history[i]).Ended?)
    && (terminal.Some? ==> exists i :: 0 <= i < n && history[i] == terminal.value && FindingOf(ctx, key, history[i]).Ended?)
  }

  lemma {:induction false} WalkedOn(ctx: Context, key: Subcheck, history: seq<Value>, n: nat, invalid: bool, failed: bool, terminal: Option<Value>)
    requires n < |history| && Walked(ctx, key, history, n, invalid, failed, terminal)
    ensures var rec := history[n];
            match FindingOf(ctx, key, rec)
            case Unusable => Walked(ctx, key, history, n + 1, true, failed, terminal)
            case Open => Walked(ctx, key, history, n + 1, invalid, failed, terminal)
            case Ended(bad) => Walked(ctx, key, history, n + 1, invalid || (terminal.Some? && terminal.value != rec), failed || bad, Some(rec))
  {
    hide FindingOf;
    var rec := history[n];
    if FindingOf(ctx, key, rec).Ended? && terminal.Some? {
      var i :| 0 <= i < n && history[i] == terminal.value && FindingOf(ctx, key, history[i]).Ended?;
    }
  }

  /** Replayed reports agree with themselves; two different ones that end a check contradict each other, however far apart. */
  method JudgeHistory(ctx: Context, key: Subcheck, history: seq<Value>, ghost recs: set<Value>) returns (invalid: bool, failed: bool, settled: bool)
    requires IsHistory(ctx, recs, key, history)
    ensures invalid <==> SomeUnusable(ctx, recs, key) || Contradicted(ctx, recs, key)
    ensures failed <==> SomeFailed(ctx, recs, key)
    ensures settled <==> Settled(ctx, recs, key)
  {
    hide FindingOf, Walked, SomeUnusable, Contradicted, SomeFailed, Settled, IsHistory;
    invalid, failed := false, false;
    var terminal: Option<Value> := None;
    NothingWalked(ctx, key, history);
    for n := 0 to |history|
      invariant Walked(ctx, key, history, n, invalid, failed, terminal)
    {
      WalkedOn(ctx, key, history, n, invalid, failed, terminal);
      var rec := history[n];
      var finding := FindingOf(ctx, key, rec);
      if finding.Unusable? {
        invalid := true;
        continue;
      }
      if finding.Open? {
        continue;
      }
      if terminal.Some? && terminal.value != rec {
        invalid := true;
      }
      terminal := Some(rec);
      if finding.failed {
        failed := true;
      }
    }
    settled := terminal.Some?;
    AllWalked(ctx, recs, key, history, invalid, failed, terminal);
  }

  lemma {:induction false} NothingWalked(ctx: Context, key: Subcheck, history: seq<Value>)
    ensures Walked(ctx, key, history, 0, false, false, None)
  {
  }

  lemma {:induction false} AllWalked(ctx: Context, recs: set<Value>, key: Subcheck, history: seq<Value>, invalid: bool, failed: bool, terminal: Option<Value>)
    requires IsHistory(ctx, recs, key, history) && Walked(ctx, key, history, |history|, invalid, failed, terminal)
    ensures invalid <==> SomeUnusable(ctx, recs, key) || Contradicted(ctx, recs, key)
    ensures failed <==> SomeFailed(ctx, recs, key)
    ensures terminal.Some? <==> Settled(ctx, recs, key)
  {
    hide FindingOf, Admit;
    forall rec | Reports(ctx, recs, key, rec) ensures exists i :: 0 <= i < |history| && history[i] == rec {
    }
    forall i | 0 <= i < |history| ensures Reports(ctx, recs, key, history[i]) {
    }
    if SomeUnusable(ctx, recs, key) {
      var rec :| Reports(ctx, recs, key, rec) && FindingOf(ctx, key, rec) == Unusable;
    }
    if Contradicted(ctx, recs, key) {
      var a, b :| Ends(ctx, recs, key, a) && Ends(ctx, recs, key, b) && a != b;
      assert Reports(ctx, recs, key, a) && Reports(ctx, recs, key, b);
    }
    forall i | 0 <= i < |history| && FindingOf(ctx, key, history[i]).Ended? ensures Ends(ctx, recs, key, history[i]) {
    }
    if Settled(ctx, recs, key) {
      var rec :| Ends(ctx, recs, key, rec);
      assert Reports(ctx, recs, key, rec);
    }
    if SomeFailed(ctx, recs, key) {
      var rec :| Reports(ctx, recs, key, rec) && FindingOf(ctx, key, rec) == Ended(true);
    }
  }

  // ---- joins ----

  /** What the two producers said of one group. */
  datatype Gathered = Gathered(producers: set<Value>, signatures: set<Value>)

  ghost predicate Gathers(ctx: Context, recs: set<Value>, groups: map<Group, Gathered>) {
    && (forall g :: g in groups <==> exists rec :: InGroup(ctx, recs, g, rec))
    && (forall g, p | g in groups :: p in groups[g].producers <==> exists rec :: InGroup(ctx, recs, g, rec) && ProducerOf(rec) == p)
    && (forall g, s | g in groups :: s in groups[g].signatures <==> exists rec :: InGroup(ctx, recs, g, rec) && ctx.signature(rec) == s)
  }

  function Noted(ctx: Context, groups: map<Group, Gathered>, g: Group, rec: Value): map<Group, Gathered> {
    var was := if g in groups then groups[g] else Gathered({}, {});
    groups[g := Gathered(was.producers + {ProducerOf(rec)}, was.signatures + {ctx.signature(rec)})]
  }

  lemma {:induction false} GathersNext(ctx: Context, recs: set<Value>, groups: map<Group, Gathered>, rec: Value)
    requires Gathers(ctx, recs, groups)
    ensures Gathers(ctx, recs + {rec}, if GroupOf(ctx, rec).Some? then Noted(ctx, groups, GroupOf(ctx, rec).value, rec) else groups)
  {
    hide GroupOf, ProducerOf;
    var more := recs + {rec};
    if GroupOf(ctx, rec).Some? {
      GathersOne(ctx, recs, groups, rec, GroupOf(ctx, rec).value);
    } else {
      forall g, r ensures InGroup(ctx, more, g, r) <==> InGroup(ctx, recs, g, r) {
      }
    }
  }

  lemma {:induction false} GathersOne(ctx: Context, recs: set<Value>, groups: map<Group, Gathered>, rec: Value, h: Group)
    requires Gathers(ctx, recs, groups) && GroupOf(ctx, rec) == Some(h)
    ensures Gathers(ctx, recs + {rec}, Noted(ctx, groups, h, rec))
  {
    hide GroupOf, ProducerOf;
    var more, next := recs + {rec}, Noted(ctx, groups, h, rec);
    forall g, r ensures InGroup(ctx, more, g, r) <==> InGroup(ctx, recs, g, r) || (r == rec && h == g) {
    }
    forall g ensures g in next <==> exists r :: InGroup(ctx, more, g, r) {
      if g == h {
        assert InGroup(ctx, more, h, rec);
      } else if g in groups {
        var r :| InGroup(ctx, recs, g, r);
        assert InGroup(ctx, more, g, r);
      }
    }
    forall g, p | g in next ensures p in next[g].producers <==> exists r :: InGroup(ctx, more, g, r) && ProducerOf(r) == p {
      if g in groups && p in groups[g].producers {
        var r :| InGroup(ctx, recs, g, r) && ProducerOf(r) == p;
        assert InGroup(ctx, more, g, r);
      } else if g == h && p == ProducerOf(rec) {
        assert InGroup(ctx, more, g, rec);
      }
    }
    forall g, s | g in next ensures s in next[g].signatures <==> exists r :: InGroup(ctx, more, g, r) && ctx.signature(r) == s {
      if g in groups && s in groups[g].signatures {
        var r :| InGroup(ctx, recs, g, r) && ctx.signature(r) == s;
        assert InGroup(ctx, more, g, r);
      } else if g == h && s == ctx.signature(rec) {
        assert InGroup(ctx, more, g, rec);
      }
    }
  }

  predicate Disagrees(x: Gathered) {
    x.producers == {Str("native"), Str("js")} && |x.signatures| != 1
  }

  lemma {:induction false} SingleMember<T>(s: set<T>, a: T)
    requires a in s
    ensures |s| == 1 <==> forall b | b in s :: b == a
  {
    assert s == {a} + (s - {a});
    if forall b | b in s :: b == a {
      assert s == {a};
    } else {
      var b :| b in s && b != a;
      assert |s - {a}| > 0 by {
        assert b in s - {a};
      }
    }
  }

  /** Only the native and the script producer are joined. */
  lemma {:induction false} GroupProducers(ctx: Context, rec: Value)
    requires WellFormedSuite(ctx) && GroupOf(ctx, rec).Some?
    ensures ProducerOf(rec) == Str("native") || ProducerOf(rec) == Str("js")
  {
  }

  lemma {:induction false} DisagreesIff(ctx: Context, recs: set<Value>, groups: map<Group, Gathered>, g: Group)
    requires WellFormedSuite(ctx) && Gathers(ctx, recs, groups)
    ensures g in groups && Disagrees(groups[g]) <==> JoinBroken(ctx, recs, g)
  {
    hide GroupOf, ProducerOf, WellFormedSuite;
    if g in groups {
      var x := groups[g];
      var rec :| InGroup(ctx, recs, g, rec);
      SingleMember(x.signatures, ctx.signature(rec));
      forall p | p in x.producers ensures p == Str("native") || p == Str("js") {
        var r :| InGroup(ctx, recs, g, r) && ProducerOf(r) == p;
        GroupProducers(ctx, r);
      }
      assert x.producers == {Str("native"), Str("js")} <==> Str("native") in x.producers && Str("js") in x.producers;
      if JoinBroken(ctx, recs, g) {
        var a, b :| InGroup(ctx, recs, g, a) && InGroup(ctx, recs, g, b) && ctx.signature(a) != ctx.signature(b);
        assert ctx.signature(a) in x.signatures && ctx.signature(b) in x.signatures;
      }
      if |x.signatures| != 1 {
        var s :| s in x.signatures && s != ctx.signature(rec);
        var b :| InGroup(ctx, recs, g, b) && ctx.signature(b) == s;
        assert InGroup(ctx, recs, g, rec) && InGroup(ctx, recs, g, b);
      }
    }
  }

  method JoinErrors(ctx: Context, records: seq<Value>) returns (broken: bool)
    requires WellFormedSuite(ctx)
    ensures broken <==> exists g :: JoinBroken(ctx, SetOf(records), g)
  {
    hide GroupOf, Gathers, JoinBroken, WellFormedSuite;
    var groups: map<Group, Gathered> := map[];
    assert Gathers(ctx, SetOf(records[..0]), groups) by {
      NothingGathered(ctx);
      assert SetOf(records[..0]) == {};
    }
    for i := 0 to |records|
      invariant Gathers(ctx, SetOf(records[..i]), groups)
    {
      GathersNext(ctx, SetOf(records[..i]), groups, records[i]);
      assert SetOf(records[..i + 1]) == SetOf(records[..i]) + {records[i]};
      var g := GroupOf(ctx, records[i]);
      if g.Some? {
        groups := Noted(ctx, groups, g.value, records[i]);
      }
    }
    assert records[..|records|] == records;
    broken := exists g | g in groups :: Disagrees(groups[g]);
    forall g ensures g in groups && Disagrees(groups[g]) <==> JoinBroken(ctx, SetOf(records), g) {
      DisagreesIff(ctx, SetOf(records), groups, g);
    }
  }

  lemma {:induction false} NothingGathered(ctx: Context)
    ensures Gathers(ctx, {}, map[])
  {
  }

  // ---- the whole run ----

  /** The records admitted for a case, in the order they came. */
  ghost predicate IsEnvelope(ctx: Context, recs: set<Value>, c: string, envelope: seq<Value>) {
    forall rec :: rec in envelope <==> rec in recs && Admit(ctx, rec).Admitted? && Admit(ctx, rec).key.case_ == c
  }

  ghost predicate Filed(ctx: Context, recs: set<Value>, envelopes: map<string, seq<Value>>, kept: seq<Value>, rejected: bool) {
    && (forall c :: c in envelopes <==> c in ctx.cases)
    && (forall c | c in envelopes :: IsEnvelope(ctx, recs, c, envelopes[c]))
    && (forall rec :: rec in kept <==> rec in recs && Admit(ctx, rec).Admitted?)
    && (rejected <==> SomeRejected(ctx, recs))
  }

  lemma {:induction false} NothingFiled(ctx: Context, envelopes: map<string, seq<Value>>)
    requires forall c :: c in envelopes <==> c in ctx.cases
    requires forall c | c in envelopes :: envelopes[c] == []
    ensures Filed(ctx, {}, envelopes, [], false)
  {
  }

  lemma {:induction false} AdmittedCase(ctx: Context, rec: Value)
    requires Admit(ctx, rec).Admitted?
    ensures Admit(ctx, rec).key.case_ in ctx.cases
  {
  }

  lemma {:induction false} FiledNext(ctx: Context, recs: set<Value>, envelopes: map<string, seq<Value>>, kept: seq<Value>, rejected: bool, rec: Value)
    requires Filed(ctx, recs, envelopes, kept, rejected)
    ensures match Admit(ctx, rec)
            case Rejected => Filed(ctx, recs + {rec}, envelopes, kept, true)
            case Diagnostic => Filed(ctx, recs + {rec}, envelopes, kept, rejected)
            case Admitted(key) =>
              key.case_ in envelopes && Filed(ctx, recs + {rec}, envelopes[key.case_ := envelopes[key.case_] + [rec]], kept + [rec], rejected)
  {
    hide Admit, IsEnvelope, SomeRejected;
    RejectedNext(ctx, recs, rec);
    forall c | c in envelopes {
      EnvelopeNext(ctx, recs, c, envelopes[c], rec);
    }
    if Admit(ctx, rec).Admitted? {
      AdmittedCase(ctx, rec);
    }
  }

  lemma {:induction false} RejectedNext(ctx: Context, recs: set<Value>, rec: Value)
    ensures SomeRejected(ctx, recs + {rec}) <==> SomeRejected(ctx, recs) || Admit(ctx, rec) == Rejected
  {
    hide Admit;
    if Admit(ctx, rec) == Rejected {
      assert rec in recs + {rec};
    }
    if SomeRejected(ctx, recs) {
      var r :| r in recs && Admit(ctx, r) == Rejected;
      assert r in recs + {rec};
    }
  }

  lemma {:induction false} EnvelopeNext(ctx: Context, recs: set<Value>, c: string, envelope: seq<Value>, rec: Value)
    requires IsEnvelope(ctx, recs, c, envelope)
    ensures IsEnvelope(ctx, recs + {rec}, c,
                       if Admit(ctx, rec).Admitted? && Admit(ctx, rec).key.case_ == c then envelope + [rec] else envelope)
  {
    hide Admit;
  }

  /** Files every record under its case. */
  method FileRecords(ctx: Context, records: seq<Value>) returns (envelopes: map<string, seq<Value>>, kept: seq<Value>, rejected: bool)
    ensures Filed(ctx, SetOf(records), envelopes, kept, rejected)
  {
    hide Admit, Filed;
    envelopes := map c | c in ctx.cases :: [];
    kept, rejected := [], false;
    NothingFiled(ctx, envelopes);
    assert SetOf(records[..0]) == {};
    for i := 0 to |records|
      invariant Filed(ctx, SetOf(records[..i]), envelopes, kept, rejected)
    {
      FiledNext(ctx, SetOf(records[..i]), envelopes, kept, rejected, records[i]);
      assert SetOf(records[..i + 1]) == SetOf(records[..i]) + {records[i]};
      var admission := Admit(ctx, records[i]);
      if admission.Rejected? {
        rejected := true;
      } else if admission.Admitted? {
        envelopes := envelopes[admission.key.case_ := envelopes[admission.key.case_] + [records[i]]];
        kept := kept + [records[i]];
      }
    }
    assert records[..|records|] == records;
  }

  method HistoryOf(ctx: Context, envelope: seq<Value>, key: Subcheck, ghost recs: set<Value>) returns (history: seq<Value>)
    requires IsEnvelope(ctx, recs, key.case_, envelope)
    ensures IsHistory(ctx, recs, key, history)
  {
    hide Admit;
    history := [];
    for i := 0 to |envelope|
      invariant forall rec :: rec in history <==> rec in envelope[..i] && Admit(ctx, rec) == Admitted(key)
    {
      assert envelope[..i + 1] == envelope[..i] + [envelope[i]];
      if Admit(ctx, envelope[i]) == Admitted(key) {
        history := history + [envelope[i]];
      }
    }
    assert envelope[..|envelope|] == envelope;
  }

  /** What a case comes to, by the worst of its required checks. */
  ghost function StatusOf(ctx: Context, recs: set<Value>, c: string): Status {
    if CaseMissing(ctx, recs, c) then CaseInvalid
    else if exists i :: 0 <= i < |ctx.required| && ctx.required[i].case_ == c && KeyInvalid(ctx, recs, ctx.required[i]) then CaseInvalid
    else if exists i :: 0 <= i < |ctx.required| && ctx.required[i].case_ == c && SomeFailed(ctx, recs, ctx.required[i]) then CaseFail
    else if exists i :: 0 <= i < |ctx.required| && ctx.required[i].case_ == c && !Settled(ctx, recs, ctx.required[i]) then CasePending
    else CasePass
  }

  ghost predicate KeyInvalid(ctx: Context, recs: set<Value>, key: Subcheck) {
    SomeUnusable(ctx, recs, key) || Contradicted(ctx, recs, key)
  }

  /** Of the case's checks among the first `n`: whether one is invalid, one failed, and one is not settled. */
  ghost predicate CaseWalked(ctx: Context, recs: set<Value>, c: string, n: nat, invalid: bool, failed: bool, pending: bool)
    requires n <= |ctx.required|
  {
    && (invalid <==> exists j :: 0 <= j < n && ctx.required[j].case_ == c && KeyInvalid(ctx, recs, ctx.required[j]))
    && (failed <==> exists j :: 0 <= j < n && ctx.required[j].case_ == c && SomeFailed(ctx, recs, ctx.required[j]))
    && (pending <==> exists j :: 0 <= j < n && ctx.required[j].case_ == c && !Settled(ctx, recs, ctx.required[j]))
  }

  lemma {:induction false} CaseNext(ctx: Context, recs: set<Value>, c: string, n: nat, invalid: bool, failed: bool, pending: bool, bad: bool, fail: bool, settled: bool)
    requires n < |ctx.required| && CaseWalked(ctx, recs, c, n, invalid, failed, pending)
    requires ctx.required[n].case_ == c ==>
      var key := ctx.required[n];
      && (bad <==> SomeUnusable(ctx, recs, key) || Contradicted(ctx, recs, key))
      && (fail <==> SomeFailed(ctx, recs, key)) && (settled <==> Settled(ctx, recs, key))
    ensures if ctx.required[n].case_ == c then CaseWalked(ctx, recs, c, n + 1, invalid || bad, failed || fail, pending || !settled)
            else CaseWalked(ctx, recs, c, n + 1, invalid, failed, pending)
  {
    hide SomeUnusable, Contradicted, SomeFailed, Settled;
  }

  lemma {:induction false} CaseDone(ctx: Context, recs: set<Value>, c: string, invalid: bool, failed: bool, pending: bool)
    requires CaseWalked(ctx, recs, c, |ctx.required|, invalid, failed, pending) && !CaseMissing(ctx, recs, c)
    ensures StatusOf(ctx, recs, c) == if invalid then CaseInvalid else if failed then CaseFail else if pending then CasePending else CasePass
  {
    hide SomeUnusable, Contradicted, SomeFailed, Settled, CaseMissing;
  }

  lemma {:induction false} MissingIsInvalid(ctx: Context, recs: set<Value>, c: string)
    requires CaseMissing(ctx, recs, c)
    ensures StatusOf(ctx, recs, c) == CaseInvalid
  {
  }

  /** One case: every required check of it, and their worst. */
  method JudgeCase(ctx: Context, c: string, envelope: seq<Value>, ghost recs: set<Value>) returns (status: Status)
    requires IsEnvelope(ctx, recs, c, envelope) && envelope != []
    ensures status == StatusOf(ctx, recs, c)
  {
    hide Admit, FindingOf, IsEnvelope, IsHistory, SomeUnusable, Contradicted, SomeFailed, Settled, CaseMissing, CaseWalked, StatusOf, KeyInvalid;
    EmptyEnvelope(ctx, recs, c, envelope);
    var invalid, failed, pending := false, false, false;
    NoneWalked(ctx, recs, c);
    for i := 0 to |ctx.required|
      invariant CaseWalked(ctx, recs, c, i, invalid, failed, pending)
    {
      var key := ctx.required[i];
      if key.case_ == c {
        var history := HistoryOf(ctx, envelope, key, recs);
        var bad, fail, settled := JudgeHistory(ctx, key, history, recs);
        CaseNext(ctx, recs, c, i, invalid, failed, pending, bad, fail, settled);
        invalid := invalid || bad;
        failed := failed || fail;
        pending := pending || !settled;
      } else {
        CaseNext(ctx, recs, c, i, invalid, failed, pending, false, false, false);
      }
    }
    CaseDone(ctx, recs, c, invalid, failed, pending);
    status := if invalid then CaseInvalid else if failed then CaseFail else if pending then CasePending else CasePass;
  }

  lemma {:induction false} NoneWalked(ctx: Context, recs: set<Value>, c: string)
    ensures CaseWalked(ctx, recs, c, 0, false, false, false)
  {
  }

  lemma {:induction false} EmptyEnvelope(ctx: Context, recs: set<Value>, c: string, envelope: seq<Value>)
    requires IsEnvelope(ctx, recs, c, envelope)
    ensures envelope == [] <==> CaseMissing(ctx, recs, c)
  {
    hide Admit;
    if envelope != [] {
      assert envelope[0] in envelope;
      var key := Admit(ctx, envelope[0]).key;
      assert Reports(ctx, recs, key, envelope[0]) && key.case_ == c;
    }
  }

  lemma {:induction false} KeptJoins(ctx: Context, recs: set<Value>, kept: seq<Value>, g: Group)
    requires forall rec :: rec in kept <==> rec in recs && Admit(ctx, rec).Admitted?
    ensures JoinBroken(ctx, SetOf(kept), g) <==> JoinBroken(ctx, recs, g)
  {
    forall rec ensures InGroup(ctx, SetOf(kept), g, rec) <==> InGroup(ctx, recs, g, rec) {
    }
    hide InGroup;
  }

  lemma {:induction false} FiledParts(ctx: Context, recs: set<Value>, envelopes: map<string, seq<Value>>, kept: seq<Value>, rejected: bool)
    requires Filed(ctx, recs, envelopes, kept, rejected)
    ensures rejected <==> SomeRejected(ctx, recs)
    ensures forall rec :: rec in kept <==> rec in recs && Admit(ctx, rec).Admitted?
    ensures forall i | 0 <= i < |ctx.cases| :: ctx.cases[i] in envelopes && IsEnvelope(ctx, recs, ctx.cases[i], envelopes[ctx.cases[i]])
  {
  }

  /** Whether any case is invalid or failed, and whether any is pending, decides what is left to decide. */
  lemma {:induction false} Concluded(ctx: Context, recs: set<Value>, prior: bool, status: map<string, Status>, bad: bool, pending: bool)
    requires WellFormedSuite(ctx)
    requires forall i | 0 <= i < |ctx.cases| :: ctx.cases[i] in status && status[ctx.cases[i]] == StatusOf(ctx, recs, ctx.cases[i])
    requires bad <==> exists i :: 0 <= i < |ctx.cases| && (status[ctx.cases[i]] == CaseInvalid || status[ctx.cases[i]] == CaseFail)
    requires pending <==> exists i :: 0 <= i < |ctx.cases| && status[ctx.cases[i]] == CasePending
    ensures bad <==> SomeMissing(ctx, recs) || exists i :: 0 <= i < |ctx.required| && KeyBroken(ctx, recs, ctx.required[i])
    ensures !bad ==> (pending <==> !AllSettled(ctx, recs))
  {
    hide SomeUnusable, Contradicted, SomeFailed, Settled, CaseMissing;
  }

  /** The judge. Its exit code and the status of every case are those of the set of the records: neither their order nor replays matter. `extra` are the
      records of the observation file, and `prior` says whether any input file was malformed. */
  method JudgeRecords(ctx: Context, records: seq<Value>, extra: seq<Value>, prior: bool) returns (exit: int, status: map<string, Status>)
    requires WellFormedSuite(ctx)
    ensures exit == ExitOf(ctx, SetOf(records + extra), prior)
    ensures forall c :: c in status <==> c in ctx.cases
    ensures forall c | c in status :: status[c] == StatusOf(ctx, SetOf(records + extra), c)
  {
    hide Admit, Filed, JoinBroken, KeyBroken, Settled, CaseMissing, SomeRejected, IsEnvelope, StatusOf, WellFormedSuite;
    var all := records + extra;
    ghost var recs := SetOf(all);
    var errors := prior || (ctx.receipt.Some? && !ctx.receiptValid);
    var envelopes, kept, rejected := FileRecords(ctx, all);
    errors := errors || rejected;
    FiledParts(ctx, recs, envelopes, kept, rejected);
    var broken := JoinErrors(ctx, kept);
    forall g ensures JoinBroken(ctx, SetOf(kept), g) <==> JoinBroken(ctx, recs, g) {
      KeptJoins(ctx, recs, kept, g);
    }
    errors := errors || broken;
    status := map[];
    for i := 0 to |ctx.cases|
      invariant forall j | 0 <= j < i :: ctx.cases[j] in status
      invariant forall c | c in status :: c in ctx.cases && status[c] == StatusOf(ctx, recs, c)
    {
      var c := ctx.cases[i];
      EmptyEnvelope(ctx, recs, c, envelopes[c]);
      var verdict := CaseInvalid;
      if envelopes[c] != [] {
        verdict := JudgeCase(ctx, c, envelopes[c], recs);
      } else {
        MissingIsInvalid(ctx, recs, c);
      }
      status := status[c := verdict];
    }
    var bad := exists i | 0 <= i < |ctx.cases| :: status[ctx.cases[i]] == CaseInvalid || status[ctx.cases[i]] == CaseFail;
    var pending := exists i | 0 <= i < |ctx.cases| :: status[ctx.cases[i]] == CasePending;
    exit := if errors || bad then 1 else if pending then 2 else 0;
    Concluded(ctx, recs, prior, status, bad, pending);
  }
}
