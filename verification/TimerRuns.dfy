/** Whole runs of a timer queue: the list queue it must agree with, bounded waiting and bounded work. */
module TimerRuns {
  import opened TimerSpec
  import opened TimerListing

  // ---- the plain list queue ----

  datatype Timer = Timer(id: nat, kind: Kind)

  function Cancelled(q: seq<Timer>, id: nat): seq<Timer> {
    if q == [] then [] else (if q[0].id == id then [] else [q[0]]) + Cancelled(q[1..], id)
  }

  /** One scan of the list: the first `n` due timers go out, the rest stays in place. */
  function ScanDue(q: seq<Timer>, now: Instant, frame: nat, n: nat): (seq<nat>, seq<Timer>) {
    if q == [] || n == 0 then ([], q)
    else if IsDue(q[0].kind, now, frame) then
      var (ids, rest) := ScanDue(q[1..], now, frame, n - 1);
      ([q[0].id] + ids, rest)
    else
      var (ids, rest) := ScanDue(q[1..], now, frame, n);
      (ids, [q[0]] + rest)
  }

  // ---- operations ----

  datatype Op =
    | Push(id: nat, kind: Kind)
    | Remove(id: nat)
    | Due(now: Instant, frame: nat)
    | DueLimited(now: Instant, frame: nat, limit: nat)
    | Length

  datatype Reply =
    | Pushed
    | Removed(found: bool)
    | Counted(n: nat)
    | Fired(ids: seq<nat>)

  predicate Drains(op: Op) {
    op.Due? || op.DueLimited?
  }

  function LinearStep(q: seq<Timer>, op: Op): (seq<Timer>, Reply) {
    match op
    case Push(id, kind) => (q + [Timer(id, kind)], Pushed)
    case Remove(id) => var rest := Cancelled(q, id); (rest, Removed(|rest| != |q|))
    case Due(now, frame) => var (ids, rest) := ScanDue(q, now, frame, |q|); (rest, Fired(ids))
    case DueLimited(now, frame, limit) => var (ids, rest) := ScanDue(q, now, frame, limit); (rest, Fired(ids))
    case Length => (q, Counted(|q|))
  }

  function LinearRun(q: seq<Timer>, ops: seq<Op>): (replies: seq<Reply>)
    ensures |replies| == |ops|
    decreases |ops|
  {
    if ops == [] then [] else
      var (q', reply) := LinearStep(q, ops[0]);
      [reply] + LinearRun(q', ops[1..])
  }

  function LinearAfter(q: seq<Timer>, ops: seq<Op>): seq<Timer>
    decreases |ops|
  {
    if ops == [] then q else LinearAfter(LinearStep(q, ops[0]).0, ops[1..])
  }

  // ---- the indexed queue, by what its methods promise ----

  datatype State = State(pending: seq<Entry>, next: nat)

  ghost predicate Ordered(st: State) {
    Sorted(st.pending) && forall i | 0 <= i < |st.pending| :: st.pending[i].sequence < st.next
  }

  function Taken(st: State, op: Op): seq<Entry> {
    match op
    case Push(_, _) => []
    case Remove(_) => []
    case Due(now, frame) => EligibleOf(st.pending, now, frame)
    case DueLimited(now, frame, limit) =>
      if limit == 0 then [] else TakeReady(MarkReady(st.pending, now, frame), limit)
    case Length => []
  }

  function Apply(st: State, op: Op): State {
    match op
    case Push(id, kind) => State(st.pending + [Entry(st.next, id, kind, false)], st.next + 1)
    case Remove(id) => st.(pending := Without(st.pending, id))
    case Due(now, frame) => st.(pending := WaitingOf(st.pending, now, frame))
    case DueLimited(now, frame, limit) =>
      if limit == 0 then st else st.(pending := DropReady(MarkReady(st.pending, now, frame), limit))
    case Length => st
  }

  function Answer(st: State, op: Op): Reply {
    match op
    case Push(_, _) => Pushed
    case Remove(id) => Removed(|Without(st.pending, id)| != |st.pending|)
    case Due(_, _) => Fired(Ids(Taken(st, op)))
    case DueLimited(_, _, _) => Fired(Ids(Taken(st, op)))
    case Length => Counted(|st.pending|)
  }

  /** Entries visited by one call. */
  function Work(st: State, op: Op): nat {
    match op
    case Push(_, _) => 0
    case Remove(_) => 0
    case Due(now, frame) => Visits(st.pending, now, frame)
    case DueLimited(now, frame, limit) => if limit == 0 then 0 else Visits(st.pending, now, frame)
    case Length => 0
  }

  function After(st: State, ops: seq<Op>): State
    decreases |ops|
  {
    if ops == [] then st else After(Apply(st, ops[0]), ops[1..])
  }

  // ---- agreement with the list queue ----

  function Erased(s: seq<Entry>): (q: seq<Timer>)
    ensures |q| == |s|
  {
    if s == [] then [] else [Timer(s[0].id, s[0].kind)] + Erased(s[1..])
  }

  /** What an earlier bounded drain left queued is still due. */
  ghost predicate ReadyStillDue(s: seq<Entry>, now: Instant, frame: nat) {
    forall i | 0 <= i < |s| && s[i].ready :: IsDue(s[i].kind, now, frame)
  }

  lemma {:induction false} ErasedAppend(s: seq<Entry>, e: Entry)
    ensures Erased(s + [e]) == Erased(s) + [Timer(e.id, e.kind)]
  {
    if s != [] {
      ErasedAppend(s[1..], e);
      assert (s + [e])[1..] == s[1..] + [e];
    }
  }

  lemma {:induction false} ErasedPrefix(e: Entry, rest: seq<Entry>)
    ensures Erased([e] + rest) == [Timer(e.id, e.kind)] + Erased(rest)
    ensures Ids([e] + rest) == [e.id] + Ids(rest)
  {
  }

  lemma {:induction false} ErasedWithout(s: seq<Entry>, id: nat)
    ensures Erased(Without(s, id)) == Cancelled(Erased(s), id)
  {
    if s != [] {
      ErasedWithout(s[1..], id);
      ErasedPrefix(s[0], Without(s[1..], id));
      ErasedTail(s);
      if s[0].id == id {
        assert Without(s, id) == Without(s[1..], id);
      }
    }
  }

  lemma {:induction false} ErasedTail(s: seq<Entry>)
    requires s != []
    ensures Erased(s) != [] && Erased(s)[0] == Timer(s[0].id, s[0].kind) && Erased(s)[1..] == Erased(s[1..])
  {
  }

  lemma {:induction false} ErasedNone()
    ensures Erased([]) == [] && Ids([]) == []
  {
  }

  lemma {:induction false} ErasedDue(s: seq<Entry>, now: Instant, frame: nat, n: nat)
    requires ReadyStillDue(s, now, frame) && |s| <= n
    ensures ScanDue(Erased(s), now, frame, n) == (Ids(EligibleOf(s, now, frame)), Erased(WaitingOf(s, now, frame)))
  {
    hide Erased, Ids, IsDue;
    if s == [] {
      ErasedNone();
    } else {
      ErasedTail(s);
      ErasedPrefix(s[0], EligibleOf(s[1..], now, frame));
      ErasedPrefix(s[0], WaitingOf(s[1..], now, frame));
      if IsDue(s[0].kind, now, frame) {
        ErasedDue(s[1..], now, frame, n - 1);
        assert WaitingOf(s, now, frame) == WaitingOf(s[1..], now, frame);
      } else {
        ErasedDue(s[1..], now, frame, n);
        assert EligibleOf(s, now, frame) == EligibleOf(s[1..], now, frame);
      }
    }
  }

  lemma {:induction false} ErasedMark(s: seq<Entry>, now: Instant, frame: nat)
    ensures Erased(MarkReady(s, now, frame)) == Erased(s)
  {
    if s != [] {
      ErasedMark(s[1..], now, frame);
      ErasedPrefix(Marked(s[0], now, frame), MarkReady(s[1..], now, frame));
    }
  }

  ghost predicate AllDue(s: seq<Entry>, now: Instant, frame: nat) {
    forall i | 0 <= i < |s| :: IsDue(s[i].kind, now, frame)
  }

  /** Taking the first ready timers of the marked list is one bounded scan of the plain list, if what is taken is due. */
  lemma {:induction false} ErasedLimited(s: seq<Entry>, now: Instant, frame: nat, n: nat)
    requires AllDue(TakeReady(MarkReady(s, now, frame), n), now, frame)
    ensures var m := MarkReady(s, now, frame);
            ScanDue(Erased(s), now, frame, n) == (Ids(TakeReady(m, n)), Erased(DropReady(m, n)))
  {
    if s == [] {
    } else if n == 0 {
      ErasedMark(s, now, frame);
    } else {
      var rest := MarkReady(s[1..], now, frame);
      var head := Marked(s[0], now, frame);
      assert MarkReady(s, now, frame) == [head] + rest;
      assert ([head] + rest)[1..] == rest;
      ErasedTail(s);
      if head.ready {
        var taken := TakeReady([head] + rest, n);
        assert taken[0] == head && taken[1..] == TakeReady(rest, n - 1);
        ErasedLimited(s[1..], now, frame, n - 1);
        ErasedPrefix(head, TakeReady(rest, n - 1));
      } else {
        ErasedLimited(s[1..], now, frame, n);
        ErasedPrefix(head, DropReady(rest, n));
      }
    }
  }

  /** The latest clock an operation shows; operations without one leave it. */
  function ClockOf(op: Op, clock: (Instant, nat)): (Instant, nat) {
    match op
    case Push(_, _) => clock
    case Remove(_) => clock
    case Due(now, frame) => (now, frame)
    case DueLimited(now, frame, _) => (now, frame)
    case Length => clock
  }

  predicate NotBefore(a: (Instant, nat), b: (Instant, nat)) {
    a.0 <= b.0 && a.1 <= b.1
  }

  /** Neither the clock nor the frame counter runs backwards. */
  predicate Nondecreasing(clock: (Instant, nat), ops: seq<Op>)
    decreases |ops|
  {
    ops == [] ||
    (NotBefore(clock, ClockOf(ops[0], clock)) && Nondecreasing(ClockOf(ops[0], clock), ops[1..]))
  }

  lemma {:induction false} StaysDue(s: seq<Entry>, a: (Instant, nat), b: (Instant, nat))
    requires ReadyStillDue(s, a.0, a.1) && NotBefore(a, b)
    ensures ReadyStillDue(s, b.0, b.1)
  {
  }

  lemma {:induction false} DropStaysDue(s: seq<Entry>, now: Instant, frame: nat, n: nat)
    requires ReadyStillDue(s, now, frame)
    ensures ReadyStillDue(DropReady(MarkReady(s, now, frame), n), now, frame)
  {
    var m := MarkReady(s, now, frame);
    assert forall i | 0 <= i < |m| :: m[i] == Marked(s[i], now, frame);
    DropWithin(m, n);
    WithinStaysDue(m, DropReady(m, n), now, frame);
  }

  lemma {:induction false} DropWithin(s: seq<Entry>, n: nat)
    ensures forall e | e in DropReady(s, n) :: e in s
  {
    if n != 0 && s != [] {
      DropWithin(s[1..], if s[0].ready then n - 1 else n);
    }
  }

  lemma {:induction false} WithinStaysDue(s: seq<Entry>, r: seq<Entry>, now: Instant, frame: nat)
    requires ReadyStillDue(s, now, frame) && forall e | e in r :: e in s
    ensures ReadyStillDue(r, now, frame)
  {
    forall i | 0 <= i < |r| && r[i].ready ensures IsDue(r[i].kind, now, frame) {
      assert r[i] in s;
      var j :| 0 <= j < |s| && s[j] == r[i];
    }
  }

  /** One step of the indexed queue answers and changes the pending timers exactly as the list queue does. */
  lemma {:induction false} StepAgrees(st: State, op: Op, clock: (Instant, nat))
    requires ReadyStillDue(st.pending, clock.0, clock.1) && NotBefore(clock, ClockOf(op, clock))
    ensures LinearStep(Erased(st.pending), op) == (Erased(Apply(st, op).pending), Answer(st, op))
    ensures var c := ClockOf(op, clock); ReadyStillDue(Apply(st, op).pending, c.0, c.1)
  {
    var c := ClockOf(op, clock);
    StaysDue(st.pending, clock, c);
    match op
    case Push(id, kind) =>
      ErasedAppend(st.pending, Entry(st.next, id, kind, false));
    case Remove(id) =>
      ErasedWithout(st.pending, id);
      WithoutMembers(st.pending, id);
      WithinStaysDue(st.pending, Without(st.pending, id), c.0, c.1);
    case Due(now, frame) =>
      ErasedDue(st.pending, now, frame, |st.pending|);
      WaitingMembers(st.pending, now, frame);
      WithinStaysDue(st.pending, WaitingOf(st.pending, now, frame), c.0, c.1);
    case DueLimited(now, frame, limit) =>
      TakenDueExactly(st.pending, now, frame, limit);
      ErasedLimited(st.pending, now, frame, limit);
      DropStaysDue(st.pending, now, frame, limit);
    case Length =>
  }

  function Answers(st: State, ops: seq<Op>): (replies: seq<Reply>)
    ensures |replies| == |ops|
    decreases |ops|
  {
    if ops == [] then [] else [Answer(st, ops[0])] + Answers(Apply(st, ops[0]), ops[1..])
  }

  /** Every run with a nondecreasing clock: same ids, same order, same booleans, same pending timers. */
  lemma {:induction false} RunAgrees(st: State, ops: seq<Op>, clock: (Instant, nat))
    requires ReadyStillDue(st.pending, clock.0, clock.1) && Nondecreasing(clock, ops)
    ensures Answers(st, ops) == LinearRun(Erased(st.pending), ops)
    ensures Erased(After(st, ops).pending) == LinearAfter(Erased(st.pending), ops)
    decreases |ops|
  {
    if ops != [] {
      StepAgrees(st, ops[0], clock);
      RunAgrees(Apply(st, ops[0]), ops[1..], ClockOf(ops[0], clock));
    }
  }

  // ---- exactly when they agree ----

  /** How many of the timers are not due. */
  function Late(q: seq<Timer>, now: Instant, frame: nat): nat {
    if q == [] then 0 else (if IsDue(q[0].kind, now, frame) then 0 else 1) + Late(q[1..], now, frame)
  }

  lemma {:induction false} ScanKeepsLate(q: seq<Timer>, now: Instant, frame: nat, n: nat)
    ensures Late(ScanDue(q, now, frame, n).1, now, frame) == Late(q, now, frame)
  {
    if q != [] && n != 0 {
      ScanKeepsLate(q[1..], now, frame, if IsDue(q[0].kind, now, frame) then n - 1 else n);
    }
  }

  lemma {:induction false} LateNone(s: seq<Entry>, now: Instant, frame: nat)
    ensures Late(Erased(s), now, frame) == 0 <==> AllDue(s, now, frame)
  {
    if s != [] {
      ErasedTail(s);
      LateNone(s[1..], now, frame);
      assert AllDue(s, now, frame) <==> IsDue(s[0].kind, now, frame) && AllDue(s[1..], now, frame) by {
        assert forall i | 0 < i < |s| :: s[i] == s[1..][i - 1];
      }
    }
  }

  lemma {:induction false} LateHead(e: Entry, rest: seq<Entry>, now: Instant, frame: nat)
    ensures Late(Erased([e] + rest), now, frame) == (if IsDue(e.kind, now, frame) then 0 else 1) + Late(Erased(rest), now, frame)
  {
    ErasedTail([e] + rest);
    assert ([e] + rest)[1..] == rest;
  }

  lemma {:induction false} LateSplit(s: seq<Entry>, now: Instant, frame: nat)
    ensures Late(Erased(s), now, frame) == Late(Erased(WaitingOf(s, now, frame)), now, frame) + Late(Erased(EligibleOf(s, now, frame)), now, frame)
  {
    if s != [] {
      LateSplit(s[1..], now, frame);
      LateHead(s[0], s[1..], now, frame);
      LateHead(s[0], WaitingOf(s[1..], now, frame), now, frame);
      LateHead(s[0], EligibleOf(s[1..], now, frame), now, frame);
      assert s == [s[0]] + s[1..];
      if Eligible(s[0], now, frame) {
        assert WaitingOf(s, now, frame) == WaitingOf(s[1..], now, frame);
      } else {
        assert EligibleOf(s, now, frame) == EligibleOf(s[1..], now, frame);
      }
    }
  }

  lemma {:induction false} LateTaken(m: seq<Entry>, now: Instant, frame: nat, n: nat)
    ensures Late(Erased(m), now, frame) == Late(Erased(DropReady(m, n)), now, frame) + Late(Erased(TakeReady(m, n)), now, frame)
  {
    if m != [] && n != 0 {
      LateTaken(m[1..], now, frame, if m[0].ready then n - 1 else n);
      assert m == [m[0]] + m[1..];
      LateHead(m[0], m[1..], now, frame);
      if m[0].ready {
        LateHead(m[0], TakeReady(m[1..], n - 1), now, frame);
      } else {
        LateHead(m[0], DropReady(m[1..], n), now, frame);
      }
    }
  }

  /** A timer left ready that is no longer due has at least `n` eligible ones ahead of it. */
  ghost predicate NoStale(s: seq<Entry>, now: Instant, frame: nat, n: nat) {
    forall k | 0 <= k < |s| && s[k].ready && !IsDue(s[k].kind, now, frame) :: |EligibleOf(s[..k], now, frame)| >= n
  }

  lemma {:induction false} NoStaleHead(s: seq<Entry>, now: Instant, frame: nat, n: nat)
    requires s != [] && 0 < n
    ensures NoStale(s, now, frame, n) <==>
              (s[0].ready ==> IsDue(s[0].kind, now, frame))
              && NoStale(s[1..], now, frame, if Eligible(s[0], now, frame) then n - 1 else n)
  {
    var rest, one := s[1..], if Eligible(s[0], now, frame) then 1 else 0;
    assert s[..0] == [];
    forall k | 0 <= k < |rest| ensures rest[k] == s[k + 1] && |EligibleOf(s[..k + 1], now, frame)| == one + |EligibleOf(rest[..k], now, frame)| {
      assert s[..k + 1][1..] == rest[..k];
    }
    hide EligibleOf, IsDue, Eligible;
    if NoStale(s, now, frame, n) {
      forall k | 0 <= k < |rest| && rest[k].ready && !IsDue(rest[k].kind, now, frame) ensures |EligibleOf(rest[..k], now, frame)| >= n - one {
        assert |EligibleOf(s[..k + 1], now, frame)| >= n;
      }
    }
    if NoStale(rest, now, frame, n - one) && (s[0].ready ==> IsDue(s[0].kind, now, frame)) {
      forall k | 0 <= k < |s| && s[k].ready && !IsDue(s[k].kind, now, frame) ensures |EligibleOf(s[..k], now, frame)| >= n {
        assert rest[k - 1] == s[k];
      }
    }
  }

  lemma {:induction false} TakenHead(s: seq<Entry>, now: Instant, frame: nat, n: nat)
    requires s != [] && 0 < n
    ensures TakeReady(MarkReady(s, now, frame), n) ==
              if Eligible(s[0], now, frame) then [Marked(s[0], now, frame)] + TakeReady(MarkReady(s[1..], now, frame), n - 1)
              else TakeReady(MarkReady(s[1..], now, frame), n)
  {
    var head, rest := Marked(s[0], now, frame), MarkReady(s[1..], now, frame);
    assert MarkReady(s, now, frame) == [head] + rest;
    assert ([head] + rest)[1..] == rest;
  }

  /** What a bounded drain takes out is all due exactly when the pending list has no stale timer within its reach. */
  lemma {:induction false} TakenDueExactly(s: seq<Entry>, now: Instant, frame: nat, n: nat)
    ensures AllDue(TakeReady(MarkReady(s, now, frame), n), now, frame) <==> NoStale(s, now, frame, n)
  {
    if s != [] && n != 0 {
      NoStaleHead(s, now, frame, n);
      TakenHead(s, now, frame, n);
      TakenDueExactly(s[1..], now, frame, if Eligible(s[0], now, frame) then n - 1 else n);
      hide TakeReady, MarkReady, NoStale, AllDue, IsDue;
      if Eligible(s[0], now, frame) {
        AllDueHead(Marked(s[0], now, frame), TakeReady(MarkReady(s[1..], now, frame), n - 1), now, frame);
      }
    } else {
      assert TakeReady(MarkReady(s, now, frame), n) == [];
    }
  }

  lemma {:induction false} AllDueHead(e: Entry, rest: seq<Entry>, now: Instant, frame: nat)
    ensures AllDue([e] + rest, now, frame) <==> IsDue(e.kind, now, frame) && AllDue(rest, now, frame)
  {
    var s := [e] + rest;
    assert s[0] == e && forall i | 0 <= i < |rest| :: s[i + 1] == rest[i];
    if AllDue(s, now, frame) {
      forall i | 0 <= i < |rest| ensures IsDue(rest[i].kind, now, frame) {
        assert IsDue(s[i + 1].kind, now, frame);
      }
    }
  }

  lemma {:induction false} EligibleDueExactly(s: seq<Entry>, now: Instant, frame: nat)
    ensures AllDue(EligibleOf(s, now, frame), now, frame) <==> ReadyStillDue(s, now, frame)
  {
    EligibleMembers(s, now, frame);
    var due := EligibleOf(s, now, frame);
    if AllDue(due, now, frame) {
      forall i | 0 <= i < |s| && s[i].ready ensures IsDue(s[i].kind, now, frame) {
        assert s[i] in due;
      }
    }
    if ReadyStillDue(s, now, frame) {
      forall i | 0 <= i < |due| ensures IsDue(due[i].kind, now, frame) {
        assert due[i] in s;
        var j :| 0 <= j < |s| && s[j] == due[i];
      }
    }
  }

  /** Read off the pending list before the operation: a drain reaches no timer that was left ready and is no longer due. */
  ghost predicate Timely(st: State, op: Op) {
    match op
    case Push(_, _) => true
    case Remove(_) => true
    case Due(now, frame) => ReadyStillDue(st.pending, now, frame)
    case DueLimited(now, frame, limit) => NoStale(st.pending, now, frame, limit)
    case Length => true
  }

  /** One step, at any time: the queues part exactly when a timer left ready is within reach and no longer due. */
  lemma {:induction false} StepAgreesExactly(st: State, op: Op)
    ensures LinearStep(Erased(st.pending), op).0 == Erased(Apply(st, op).pending) <==> Timely(st, op)
    ensures Timely(st, op) ==> LinearStep(Erased(st.pending), op).1 == Answer(st, op)
  {
    match op
    case Push(id, kind) =>
      ErasedAppend(st.pending, Entry(st.next, id, kind, false));
    case Remove(id) =>
      ErasedWithout(st.pending, id);
    case Due(now, frame) =>
      DueAgreesExactly(st.pending, now, frame);
    case DueLimited(now, frame, limit) =>
      LimitedAgreesExactly(st.pending, now, frame, limit);
      ErasedMark(st.pending, now, frame);
    case Length =>
  }

  lemma {:induction false} DueAgreesExactly(s: seq<Entry>, now: Instant, frame: nat)
    ensures var (ids, rest) := ScanDue(Erased(s), now, frame, |s|);
            && (rest == Erased(WaitingOf(s, now, frame)) <==> ReadyStillDue(s, now, frame))
            && (ReadyStillDue(s, now, frame) ==> ids == Ids(EligibleOf(s, now, frame)))
  {
    ScanKeepsLate(Erased(s), now, frame, |s|);
    LateSplit(s, now, frame);
    LateNone(EligibleOf(s, now, frame), now, frame);
    EligibleDueExactly(s, now, frame);
    if ReadyStillDue(s, now, frame) {
      ErasedDue(s, now, frame, |s|);
    }
  }

  lemma {:induction false} LimitedAgreesExactly(s: seq<Entry>, now: Instant, frame: nat, n: nat)
    ensures var (ids, rest) := ScanDue(Erased(s), now, frame, n);
            var m := MarkReady(s, now, frame);
            && (rest == Erased(DropReady(m, n)) <==> NoStale(s, now, frame, n))
            && (NoStale(s, now, frame, n) ==> ids == Ids(TakeReady(m, n)))
  {
    var m := MarkReady(s, now, frame);
    ErasedMark(s, now, frame);
    ScanKeepsLate(Erased(s), now, frame, n);
    LateTaken(m, now, frame, n);
    LateNone(TakeReady(m, n), now, frame);
    TakenDueExactly(s, now, frame, n);
    if NoStale(s, now, frame, n) {
      ErasedLimited(s, now, frame, n);
    }
  }

  ghost predicate AlwaysTimely(st: State, ops: seq<Op>)
    decreases |ops|
  {
    ops == [] || (Timely(st, ops[0]) && AlwaysTimely(Apply(st, ops[0]), ops[1..]))
  }

  /** The two queues hold the same timers after every step. */
  ghost predicate InStep(st: State, q: seq<Timer>, ops: seq<Op>)
    decreases |ops|
  {
    q == Erased(st.pending) && (ops == [] || InStep(Apply(st, ops[0]), LinearStep(q, ops[0]).0, ops[1..]))
  }

  /** Any run, whatever the clock does: the queues stay in step exactly when no drain reaches a timer left ready that is no
      longer due. */
  lemma {:induction false} RunAgreesExactly(st: State, ops: seq<Op>)
    ensures InStep(st, Erased(st.pending), ops) <==> AlwaysTimely(st, ops)
    ensures AlwaysTimely(st, ops) ==> Answers(st, ops) == LinearRun(Erased(st.pending), ops)
    decreases |ops|
  {
    if ops != [] {
      StepAgreesExactly(st, ops[0]);
      RunAgreesExactly(Apply(st, ops[0]), ops[1..]);
    }
  }

  /** When the clock runs backwards they part: a timer left ready by a bounded drain fires early. */
  lemma {:induction false} BackwardsClockParts()
    ensures exists ops: seq<Op> :: Answers(State([], 0), ops) != LinearRun([], ops)
  {
    hide Answer, Apply, LinearStep;
    var ops := [Push(1, Frame(5)), Push(2, Frame(5)), DueLimited(0, 5, 1), Due(0, 4)];
    EarlyAnswer();
    LinearSilence();
    AnswersAt(State([], 0), ops);
    LinearAt([], ops);
  }

  lemma {:induction false} EarlyAnswer()
    ensures Answer(Apply(Apply(Apply(State([], 0), Push(1, Frame(5))), Push(2, Frame(5))), DueLimited(0, 5, 1)), Due(0, 4)) == Fired([2])
  {
    var s2 := State([Entry(0, 1, Frame(5), false), Entry(1, 2, Frame(5), false)], 2);
    assert Apply(Apply(State([], 0), Push(1, Frame(5))), Push(2, Frame(5))) == s2;
    var s3 := State([Entry(1, 2, Frame(5), true)], 2);
    var m := MarkReady(s2.pending, 0, 5);
    assert m == [Entry(0, 1, Frame(5), true), Entry(1, 2, Frame(5), true)];
    assert m[1..] == s3.pending;
    assert Apply(s2, DueLimited(0, 5, 1)) == s3;
    assert EligibleOf(s3.pending, 0, 4) == s3.pending;
  }

  lemma {:induction false} LinearSilence()
    ensures LinearStep(LinearStep(LinearStep(LinearStep([], Push(1, Frame(5))).0, Push(2, Frame(5))).0, DueLimited(0, 5, 1)).0, Due(0, 4)).1 == Fired([])
  {
    var q2 := [Timer(1, Frame(5)), Timer(2, Frame(5))];
    assert LinearStep(LinearStep([], Push(1, Frame(5))).0, Push(2, Frame(5))).0 == q2;
    assert q2[1..] == [Timer(2, Frame(5))];
    var q3 := [Timer(2, Frame(5))];
    assert LinearStep(q2, DueLimited(0, 5, 1)).0 == q3;
    assert q3[1..] == [];
  }

  lemma {:induction false} AnswersAt(st: State, ops: seq<Op>)
    requires |ops| == 4
    ensures Answers(st, ops)[3] == Answer(Apply(Apply(Apply(st, ops[0]), ops[1]), ops[2]), ops[3])
  {
    var s1 := Apply(st, ops[0]);
    var s2 := Apply(s1, ops[1]);
    assert Answers(st, ops)[3] == Answers(s1, ops[1..])[2];
    assert Answers(s1, ops[1..])[2] == Answers(s2, ops[1..][1..])[1];
    assert ops[1..][1..] == ops[2..];
    assert ops[2..][1..] == ops[3..];
  }

  lemma {:induction false} LinearAt(q: seq<Timer>, ops: seq<Op>)
    requires |ops| == 4
    ensures LinearRun(q, ops)[3] == LinearStep(LinearStep(LinearStep(LinearStep(q, ops[0]).0, ops[1]).0, ops[2]).0, ops[3]).1
  {
    var q1 := LinearStep(q, ops[0]).0;
    var q2 := LinearStep(q1, ops[1]).0;
    assert LinearRun(q, ops)[3] == LinearRun(q1, ops[1..])[2];
    assert LinearRun(q1, ops[1..])[2] == LinearRun(q2, ops[1..][1..])[1];
    assert ops[1..][1..] == ops[2..];
    assert ops[2..][1..] == ops[3..];
  }

  // ---- what one bounded drain returns ----

  /** A bounded drain returns the first `n` eligible timers, fewer only when there are fewer. */
  lemma {:induction false} LimitedTakesFirst(s: seq<Entry>, now: Instant, frame: nat, n: nat)
    ensures var all := Ids(EligibleOf(s, now, frame));
            Ids(TakeReady(MarkReady(s, now, frame), n)) == all[..if n < |all| then n else |all|]
  {
    if s != [] && n != 0 {
      TakenHead(s, now, frame, n);
      EligibleHead(s, now, frame);
      LimitedTakesFirst(s[1..], now, frame, if Eligible(s[0], now, frame) then n - 1 else n);
      hide TakeReady, MarkReady, EligibleOf, Ids;
      if Eligible(s[0], now, frame) {
        ErasedPrefix(Marked(s[0], now, frame), TakeReady(MarkReady(s[1..], now, frame), n - 1));
        ErasedPrefix(s[0], EligibleOf(s[1..], now, frame));
      }
    } else {
      assert TakeReady(MarkReady(s, now, frame), n) == [];
    }
  }

  lemma {:induction false} EligibleHead(s: seq<Entry>, now: Instant, frame: nat)
    requires s != []
    ensures EligibleOf(s, now, frame) ==
              if Eligible(s[0], now, frame) then [s[0]] + EligibleOf(s[1..], now, frame) else EligibleOf(s[1..], now, frame)
  {
  }

  lemma {:induction false} TakeSplits(m: seq<Entry>, a: nat, b: nat)
    ensures TakeReady(m, a) + TakeReady(DropReady(m, a), b) == TakeReady(m, a + b)
    ensures DropReady(DropReady(m, a), b) == DropReady(m, a + b)
  {
    if m != [] && a != 0 {
      if m[0].ready {
        TakeSplits(m[1..], a - 1, b);
        var more := TakeReady(DropReady(m[1..], a - 1), b);
        assert [m[0]] + TakeReady(m[1..], a - 1) + more == [m[0]] + (TakeReady(m[1..], a - 1) + more);
      } else {
        TakeSplits(m[1..], a, b);
        SkipWaiting(m[0], DropReady(m[1..], a), b);
        if b == 0 {
          assert TakeReady(DropReady(m, a), b) == [];
        }
      }
    }
  }

  /** Marking again at the same time changes nothing. */
  lemma {:induction false} MarkTwice(s: seq<Entry>, now: Instant, frame: nat, n: nat)
    ensures var left := DropReady(MarkReady(s, now, frame), n); MarkReady(left, now, frame) == left
  {
    var m := MarkReady(s, now, frame);
    var left := DropReady(m, n);
    DropWithin(m, n);
    forall i | 0 <= i < |left| ensures Marked(left[i], now, frame) == left[i] {
      assert left[i] in m;
      var j :| 0 <= j < |m| && m[j] == left[i];
      assert m[j] == Marked(s[j], now, frame);
    }
  }

  lemma {:induction false} IdsConcat(a: seq<Entry>, b: seq<Entry>)
    ensures Ids(a + b) == Ids(a) + Ids(b)
  {
  }

  /** Splitting a limit over two calls at the same time returns the same timers and leaves the same ones. */
  lemma {:induction false} LimitSplits(st: State, now: Instant, frame: nat, a: nat, b: nat)
    ensures var first := Apply(st, DueLimited(now, frame, a));
            && Answer(st, DueLimited(now, frame, a + b)) ==
                 Fired(Answer(st, DueLimited(now, frame, a)).ids + Answer(first, DueLimited(now, frame, b)).ids)
            && Apply(st, DueLimited(now, frame, a + b)) == Apply(first, DueLimited(now, frame, b))
  {
    var m := MarkReady(st.pending, now, frame);
    TakeSplits(m, a, b);
    MarkTwice(st.pending, now, frame, a);
    IdsConcat(TakeReady(m, a), TakeReady(DropReady(m, a), b));
  }

  // ---- bounded waiting ----

  function OlderCount(s: seq<Entry>, sequence: nat): nat {
    if s == [] then 0 else (if s[0].sequence < sequence then 1 else 0) + OlderCount(s[1..], sequence)
  }

  function Drainage(ops: seq<Op>): nat {
    if ops == [] then 0 else (if Drains(ops[0]) then 1 else 0) + Drainage(ops[1..])
  }

  /** Every timer returned over the run, in the order returned. */
  function Returned(st: State, ops: seq<Op>): seq<Entry>
    decreases |ops|
  {
    if ops == [] then [] else Taken(st, ops[0]) + Returned(Apply(st, ops[0]), ops[1..])
  }

  ghost predicate Waits(s: seq<Entry>, sequence: nat, kind: Kind, id: nat) {
    exists i | 0 <= i < |s| :: s[i].sequence == sequence && s[i].kind == kind && s[i].id == id
  }

  /** The run never cancels `id`, and no drain in it asks for fewer than `limit` timers. */
  predicate Fair(ops: seq<Op>, id: nat, limit: nat) {
    forall i | 0 <= i < |ops| :: ops[i] != Remove(id) && (ops[i].DueLimited? ==> limit <= ops[i].limit)
  }

  lemma {:induction false} OlderAppend(s: seq<Entry>, e: Entry, q: nat)
    ensures OlderCount(s + [e], q) == OlderCount(s, q) + if e.sequence < q then 1 else 0
  {
    if s != [] {
      OlderAppend(s[1..], e, q);
      assert (s + [e])[1..] == s[1..] + [e];
    }
  }

  lemma {:induction false} OlderWithout(s: seq<Entry>, id: nat, q: nat)
    ensures OlderCount(Without(s, id), q) <= OlderCount(s, q)
  {
    if s != [] {
      OlderWithout(s[1..], id, q);
      OlderPrefix(s[0], Without(s[1..], id), q);
      assert s[0].id == id ==> Without(s, id) == Without(s[1..], id);
    }
  }

  lemma {:induction false} OlderPrefix(e: Entry, rest: seq<Entry>, q: nat)
    ensures OlderCount([e] + rest, q) == OlderCount(rest, q) + if e.sequence < q then 1 else 0
  {
  }

  lemma {:induction false} OlderMark(s: seq<Entry>, now: Instant, frame: nat, q: nat)
    ensures OlderCount(MarkReady(s, now, frame), q) == OlderCount(s, q)
  {
    if s != [] {
      OlderMark(s[1..], now, frame, q);
      OlderPrefix(Marked(s[0], now, frame), MarkReady(s[1..], now, frame), q);
    }
  }

  /** A ready timer that a bounded drain leaves behind had `n` older ready ones taken before it. */
  lemma {:induction false} TakenOrCloser(m: seq<Entry>, k: nat, n: nat)
    requires Sorted(m) && k < |m| && m[k].ready
    ensures m[k] in TakeReady(m, n) ||
            (m[k] in DropReady(m, n) && OlderCount(DropReady(m, n), m[k].sequence) + n == OlderCount(m, m[k].sequence))
  {
    if n == 0 {
    } else if k == 0 {
      assert m[0] in TakeReady(m, n);
    } else {
      TailSorted(m);
      var e := m[k];
      assert m[1..][k - 1] == e && m[0].sequence < e.sequence;
      if m[0].ready {
        TakenOrCloser(m[1..], k - 1, n - 1);
        assert TakeReady(m, n) == [m[0]] + TakeReady(m[1..], n - 1);
      } else {
        TakenOrCloser(m[1..], k - 1, n);
        OlderPrefix(m[0], DropReady(m[1..], n), e.sequence);
        assert DropReady(m, n) == [m[0]] + DropReady(m[1..], n);
      }
    }
  }

  lemma {:induction false} DropSorted(s: seq<Entry>, n: nat)
    requires Sorted(s)
    ensures Sorted(DropReady(s, n))
  {
    if n != 0 && s != [] {
      TailSorted(s);
      DropSorted(s[1..], if s[0].ready then n - 1 else n);
      DropWithin(s[1..], n);
      if !s[0].ready {
        ConsSorted(s, DropReady(s[1..], n));
      }
    }
  }

  /** Insertion order and the sequence counter stay consistent. */
  lemma {:induction false} StepOrdered(st: State, op: Op)
    requires Ordered(st)
    ensures Ordered(Apply(st, op))
  {
    match op
    case Push(_, _) =>
    case Remove(id) =>
      WithoutSorted(st.pending, id);
      WithoutMembers(st.pending, id);
      StillBelow(st.pending, Without(st.pending, id), st.next);
    case Due(now, frame) =>
      WaitingSorted(st.pending, now, frame);
      WaitingMembers(st.pending, now, frame);
      StillBelow(st.pending, WaitingOf(st.pending, now, frame), st.next);
    case DueLimited(now, frame, limit) =>
      var m := MarkReady(st.pending, now, frame);
      MarkSorted(st.pending, now, frame);
      DropSorted(m, limit);
      DropWithin(m, limit);
      assert forall i | 0 <= i < |m| :: m[i].sequence == st.pending[i].sequence;
      StillBelow(m, DropReady(m, limit), st.next);
    case Length =>
  }

  lemma {:induction false} StillBelow(s: seq<Entry>, r: seq<Entry>, next: nat)
    requires forall i | 0 <= i < |s| :: s[i].sequence < next
    requires forall e | e in r :: e in s
    ensures forall i | 0 <= i < |r| :: r[i].sequence < next
  {
    forall i | 0 <= i < |r| ensures r[i].sequence < next {
      assert r[i] in s;
    }
  }

  lemma {:induction false} WaitsIn(s: seq<Entry>, e: Entry)
    requires e in s
    ensures Waits(s, e.sequence, e.kind, e.id)
  {
  }

  /** One step either returns the eligible timer or leaves it with fewer older ones, `limit` fewer after a drain. */
  lemma {:induction false} StepProgress(st: State, op: Op, k: nat, limit: nat)
    requires Ordered(st) && k < |st.pending| && op != Remove(st.pending[k].id)
    requires 0 < limit && (op.DueLimited? ==> limit <= op.limit && Eligible(st.pending[k], op.now, op.frame))
    requires op.Due? ==> Eligible(st.pending[k], op.now, op.frame)
    ensures var e := st.pending[k];
            Waits(Taken(st, op), e.sequence, e.kind, e.id) ||
            (Waits(Apply(st, op).pending, e.sequence, e.kind, e.id) &&
             OlderCount(Apply(st, op).pending, e.sequence) + (if Drains(op) then limit else 0) <= OlderCount(st.pending, e.sequence))
  {
    var s, e := st.pending, st.pending[k];
    match op
    case Push(id, kind) =>
      OlderAppend(s, Entry(st.next, id, kind, false), e.sequence);
      WaitsIn(Apply(st, op).pending, e);
    case Remove(id) =>
      OlderWithout(s, id, e.sequence);
      WithoutMembers(s, id);
      WaitsIn(Without(s, id), e);
    case Due(now, frame) =>
      EligibleMembers(s, now, frame);
      WaitsIn(EligibleOf(s, now, frame), e);
    case DueLimited(now, frame, n) =>
      var m := MarkReady(s, now, frame);
      MarkSorted(s, now, frame);
      TakenOrCloser(m, k, n);
      OlderMark(s, now, frame, e.sequence);
      if m[k] in TakeReady(m, n) {
        WaitsIn(TakeReady(m, n), m[k]);
      } else {
        WaitsIn(DropReady(m, n), m[k]);
      }
    case Length =>
      WaitsIn(s, e);
  }

  /** What the drains of a run can return at the least, with `limit` timers each. */
  function Budget(ops: seq<Op>, limit: nat): nat {
    if ops == [] then 0 else (if Drains(ops[0]) then limit else 0) + Budget(ops[1..], limit)
  }

  lemma {:induction false} ReturnedWithinBudget(st: State, ops: seq<Op>, k: nat, limit: nat, clock: (Instant, nat))
    requires Ordered(st) && k < |st.pending| && 0 < limit
    requires Nondecreasing(clock, ops) && IsDue(st.pending[k].kind, clock.0, clock.1)
    requires Fair(ops, st.pending[k].id, limit)
    requires OlderCount(st.pending, st.pending[k].sequence) < Budget(ops, limit)
    ensures var e := st.pending[k]; Waits(Returned(st, ops), e.sequence, e.kind, e.id)
    decreases |ops|
  {
    var e := st.pending[k];
    var op, rest := ops[0], ops[1..];
    var st' := Apply(st, op);
    StepOrdered(st, op);
    StepProgress(st, op, k, limit);
    if !Waits(Taken(st, op), e.sequence, e.kind, e.id) {
      var k' :| 0 <= k' < |st'.pending| && st'.pending[k'].sequence == e.sequence
                && st'.pending[k'].kind == e.kind && st'.pending[k'].id == e.id;
      assert forall i | 0 <= i < |rest| :: rest[i] == ops[i + 1];
      ReturnedWithinBudget(st', rest, k', limit, ClockOf(op, clock));
    }
    WaitsConcat(Taken(st, op), Returned(st', rest), e);
  }

  lemma {:induction false} BudgetIs(ops: seq<Op>, limit: nat)
    ensures Budget(ops, limit) == Drainage(ops) * limit
  {
    if ops != [] {
      BudgetIs(ops[1..], limit);
    }
  }

  lemma {:induction false} EnoughCalls(k: nat, calls: nat, limit: nat)
    requires 0 < limit && k / limit + 1 <= calls
    ensures k < calls * limit
  {
    var q := k / limit;
    assert k < q * limit + limit;
    assert 0 <= (calls - q - 1) * limit;
  }

  /** A due timer with k older pending ones is returned by drain number k / limit + 1 at the latest,
      whatever is pushed or cancelled in between. */
  lemma {:induction false} NoStarvation(st: State, ops: seq<Op>, k: nat, limit: nat, clock: (Instant, nat))
    requires Ordered(st) && k < |st.pending| && 0 < limit
    requires Nondecreasing(clock, ops) && IsDue(st.pending[k].kind, clock.0, clock.1)
    requires Fair(ops, st.pending[k].id, limit)
    requires OlderCount(st.pending, st.pending[k].sequence) / limit + 1 <= Drainage(ops)
    ensures var e := st.pending[k]; Waits(Returned(st, ops), e.sequence, e.kind, e.id)
  {
    BudgetIs(ops, limit);
    EnoughCalls(OlderCount(st.pending, st.pending[k].sequence), Drainage(ops), limit);
    ReturnedWithinBudget(st, ops, k, limit, clock);
  }

  lemma {:induction false} WaitsConcat(a: seq<Entry>, b: seq<Entry>, e: Entry)
    requires Waits(a, e.sequence, e.kind, e.id) || Waits(b, e.sequence, e.kind, e.id)
    ensures Waits(a + b, e.sequence, e.kind, e.id)
  {
    if Waits(a, e.sequence, e.kind, e.id) {
      var i :| 0 <= i < |a| && a[i].sequence == e.sequence && a[i].kind == e.kind && a[i].id == e.id;
      assert (a + b)[i] == a[i];
    } else {
      var i :| 0 <= i < |b| && b[i].sequence == e.sequence && b[i].kind == e.kind && b[i].id == e.id;
      assert (a + b)[|a| + i] == b[i];
    }
  }

  // ---- bounded work ----

  function Unready(s: seq<Entry>): nat {
    if s == [] then 0 else (if s[0].ready then 0 else 1) + Unready(s[1..])
  }

  function Pushes(ops: seq<Op>): nat {
    if ops == [] then 0 else (if ops[0].Push? then 1 else 0) + Pushes(ops[1..])
  }

  function TotalWork(st: State, ops: seq<Op>): nat
    decreases |ops|
  {
    if ops == [] then 0 else Work(st, ops[0]) + TotalWork(Apply(st, ops[0]), ops[1..])
  }

  lemma {:induction false} UnreadyPrefix(e: Entry, rest: seq<Entry>)
    ensures Unready([e] + rest) == Unready(rest) + if e.ready then 0 else 1
  {
  }

  lemma {:induction false} UnreadyAppend(s: seq<Entry>, e: Entry)
    ensures Unready(s + [e]) == Unready(s) + if e.ready then 0 else 1
  {
    if s != [] {
      UnreadyAppend(s[1..], e);
      assert (s + [e])[1..] == s[1..] + [e];
    }
  }

  lemma {:induction false} UnreadyWithout(s: seq<Entry>, id: nat)
    ensures Unready(Without(s, id)) <= Unready(s)
  {
    if s != [] {
      UnreadyWithout(s[1..], id);
      UnreadyPrefix(s[0], Without(s[1..], id));
      assert s[0].id == id ==> Without(s, id) == Without(s[1..], id);
    }
  }

  /** What a search finds newly due leaves the unready timers for good. */
  lemma {:induction false} FreshLeave(s: seq<Entry>, now: Instant, frame: nat)
    ensures Unready(WaitingOf(s, now, frame)) + |FreshOf(s, now, frame)| == Unready(s)
    ensures Unready(MarkReady(s, now, frame)) + |FreshOf(s, now, frame)| == Unready(s)
  {
    if s != [] {
      FreshLeave(s[1..], now, frame);
      UnreadyPrefix(s[0], WaitingOf(s[1..], now, frame));
      assert Eligible(s[0], now, frame) ==> WaitingOf(s, now, frame) == WaitingOf(s[1..], now, frame);
      UnreadyPrefix(Marked(s[0], now, frame), MarkReady(s[1..], now, frame));
    }
  }

  lemma {:induction false} DropKeepsUnready(m: seq<Entry>, n: nat)
    ensures Unready(DropReady(m, n)) == Unready(m)
  {
    if m != [] && n != 0 {
      DropKeepsUnready(m[1..], if m[0].ready then n - 1 else n);
      UnreadyPrefix(m[0], DropReady(m[1..], n));
    }
  }

  lemma {:induction false} StepWork(st: State, op: Op)
    ensures Unready(Apply(st, op).pending) + Work(st, op) <= Unready(st.pending) + if op.Push? || Drains(op) then 1 else 0
  {
    match op
    case Push(id, kind) => UnreadyAppend(st.pending, Entry(st.next, id, kind, false));
    case Remove(id) => UnreadyWithout(st.pending, id);
    case Due(now, frame) => FreshLeave(st.pending, now, frame);
    case DueLimited(now, frame, limit) =>
      FreshLeave(st.pending, now, frame);
      DropKeepsUnready(MarkReady(st.pending, now, frame), limit);
    case Length =>
  }

  /** Over any run the queue visits at most one entry per push and one per drain. */
  lemma {:induction false} WorkBounded(st: State, ops: seq<Op>)
    ensures Unready(After(st, ops).pending) + TotalWork(st, ops) <= Unready(st.pending) + Pushes(ops) + Drainage(ops)
    decreases |ops|
  {
    if ops != [] {
      StepWork(st, ops[0]);
      WorkBounded(Apply(st, ops[0]), ops[1..]);
    }
  }

  // ---- runs grow at the end ----

  lemma {:induction false} RunSnoc(st: State, ops: seq<Op>, op: Op)
    ensures After(st, ops + [op]) == Apply(After(st, ops), op)
    ensures Answers(st, ops + [op]) == Answers(st, ops) + [Answer(After(st, ops), op)]
    ensures TotalWork(st, ops + [op]) == TotalWork(st, ops) + Work(After(st, ops), op)
    ensures Pushes(ops + [op]) == Pushes(ops) + if op.Push? then 1 else 0
    decreases |ops|
  {
    if ops == [] {
      assert ops + [op] == [op];
      assert [op][1..] == [];
    } else {
      RunSnoc(Apply(st, ops[0]), ops[1..], op);
      assert (ops + [op])[1..] == ops[1..] + [op];
    }
  }

  /** Every pushed timer takes the next sequence. */
  lemma {:induction false} NextCountsPushes(st: State, ops: seq<Op>)
    ensures After(st, ops).next == st.next + Pushes(ops)
    decreases |ops|
  {
    if ops != [] {
      NextCountsPushes(Apply(st, ops[0]), ops[1..]);
    }
  }

  lemma {:induction false} PrefixAgrees(st: State, ops: seq<Op>, n: nat)
    requires n <= |ops|
    ensures Answers(st, ops[..n]) == Answers(st, ops)[..n]
    decreases n
  {
    if n != 0 {
      PrefixAgrees(Apply(st, ops[0]), ops[1..], n - 1);
      assert ops[..n][1..] == ops[1..][..n - 1];
    }
  }

  // ---- the linear list in plain terms ----

  /** A drain takes a timer exactly if its deadline is not after now, or its frame not after the present one; the others stay, and both
      parts keep their order. */
  lemma {:induction false} ScanNext(q: seq<Timer>, t: Timer, now: Instant, frame: nat)
    ensures var before, all := ScanDue(q, now, frame, |q|), ScanDue(q + [t], now, frame, |q| + 1);
            var due := match t.kind
                       case Deadline(target) => target <= now
                       case Frame(at) => at <= frame;
            && all.0 == before.0 + (if due then [t.id] else [])
            && all.1 == before.1 + (if due then [] else [t])
  {
    ScanNextFrom(q, t, now, frame, |q|);
  }

  lemma {:induction false} ScanNextFrom(q: seq<Timer>, t: Timer, now: Instant, frame: nat, n: nat)
    requires n >= |q|
    ensures var before, all := ScanDue(q, now, frame, n), ScanDue(q + [t], now, frame, n + 1);
            var due := match t.kind
                       case Deadline(target) => target <= now
                       case Frame(at) => at <= frame;
            && all.0 == before.0 + (if due then [t.id] else [])
            && all.1 == before.1 + (if due then [] else [t])
  {
    if q == [] {
      assert q + [t] == [t] && [t][1..] == [];
    } else {
      assert (q + [t])[0] == q[0] && (q + [t])[1..] == q[1..] + [t];
      EnoughDue(q[1..], now, frame, n, n - 1);
      EnoughDue(q[1..] + [t], now, frame, n, n + 1);
      ScanNextFrom(q[1..], t, now, frame, n - 1);
    }
  }

  /** A limit of at least the length is none. */
  lemma {:induction false} EnoughDue(q: seq<Timer>, now: Instant, frame: nat, n: nat, m: nat)
    requires n >= |q| && m >= |q|
    ensures ScanDue(q, now, frame, n) == ScanDue(q, now, frame, m)
  {
    if q != [] {
      EnoughDue(q[1..], now, frame, n - 1, m - 1);
      EnoughDue(q[1..], now, frame, n, m);
    }
  }

  /** A limited drain takes as many as are due, up to the limit. */
  lemma {:induction false} LimitedCount(q: seq<Timer>, now: Instant, frame: nat, n: nat)
    ensures var limited, all := ScanDue(q, now, frame, n).0, ScanDue(q, now, frame, |q|).0;
            |limited| == if n < |all| then n else |all|
  {
    if q != [] && n > 0 {
      EnoughDue(q[1..], now, frame, |q|, |q| - 1);
      LimitedCount(q[1..], now, frame, n);
      LimitedCount(q[1..], now, frame, n - 1);
    }
  }

  /** A cancellation takes every timer of the id and answers whether there was one. */
  lemma {:induction false} CancelExactly(q: seq<Timer>, id: nat, t: Timer)
    ensures t in Cancelled(q, id) <==> t in q && t.id != id
    ensures LinearStep(q, Remove(id)).1 == Removed(exists i :: 0 <= i < |q| && q[i].id == id)
  {
    CancelledMember(q, id, t);
    CancelledCount(q, id);
  }

  lemma {:induction false} CancelledMember(q: seq<Timer>, id: nat, t: Timer)
    ensures t in Cancelled(q, id) <==> t in q && t.id != id
  {
    if q != [] {
      CancelledMember(q[1..], id, t);
    }
  }

  lemma {:induction false} CancelledCount(q: seq<Timer>, id: nat)
    ensures |Cancelled(q, id)| <= |q|
    ensures |Cancelled(q, id)| != |q| <==> exists i :: 0 <= i < |q| && q[i].id == id
  {
    if q != [] {
      CancelledCount(q[1..], id);
      if i :| 0 <= i < |q[1..]| && q[1..][i].id == id {
        assert q[i + 1].id == id;
      }
      if i :| 0 <= i < |q| && q[i].id == id {
        if i > 0 {
          assert q[1..][i - 1].id == id;
        }
      }
    }
  }

  /** Work, entry by entry: one for each that becomes ready now, and one in all for the deadlines that are still ahead. */
  lemma {:induction false} VisitsNext(s: seq<Entry>, e: Entry, now: Instant, frame: nat)
    ensures Visits([], now, frame) == 0
    ensures var due := match e.kind
                       case Deadline(target) => target <= now
                       case Frame(at) => at <= frame;
            var ahead := exists i :: 0 <= i < |s| && !s[i].ready && s[i].kind.Deadline? && s[i].kind.target > now;
            Visits(s + [e], now, frame) == Visits(s, now, frame)
              + (if !e.ready && due then 1 else 0) + (if !e.ready && e.kind.Deadline? && !due && !ahead then 1 else 0)
  {
    FreshNext(s, e, now, frame);
    hide FreshOf;
    assert DeadlineAhead(s + [e], now) <==> DeadlineAhead(s, now) || (!e.ready && e.kind.Deadline? && now < e.kind.target) by {
      assert (s + [e])[|s|] == e;
      assert forall i | 0 <= i < |s| :: (s + [e])[i] == s[i];
    }
  }

  lemma {:induction false} FreshNext(s: seq<Entry>, e: Entry, now: Instant, frame: nat)
    ensures FreshOf([], now, frame) == []
    ensures FreshOf(s + [e], now, frame) == FreshOf(s, now, frame) + if Fresh(e, now, frame) then [e] else []
  {
    hide FreshOf, Fresh;
    FreshHead(e, [], now, frame);
    if s == [] {
      assert s + [e] == [e] + [];
    } else {
      FreshNext(s[1..], e, now, frame);
      FreshHead(s[0], s[1..], now, frame);
      FreshHead(s[0], s[1..] + [e], now, frame);
      assert s == [s[0]] + s[1..] && s + [e] == [s[0]] + (s[1..] + [e]);
    }
  }

  lemma {:induction false} FreshHead(e: Entry, rest: seq<Entry>, now: Instant, frame: nat)
    ensures FreshOf([], now, frame) == []
    ensures FreshOf([e] + rest, now, frame) == (if Fresh(e, now, frame) then [e] else []) + FreshOf(rest, now, frame)
  {
    assert ([e] + rest)[1..] == rest;
  }

  /** Only drains work, and one with a limit of zero does not. */
  lemma {:induction false} WorkExactly(st: State, op: Op)
    ensures Work(st, op) ==
            if op.Due? || (op.DueLimited? && op.limit > 0) then Visits(st.pending, op.now, op.frame) else 0
  {
  }
}
