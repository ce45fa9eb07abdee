/** What each operation does to the pending queries, and what follows from it over a whole run. */
module ConvarTrace {
  import opened Multiplexer
  import opened ConvarSpec
  import opened Options
  import opened Convars
  import E = EntitySpec

  datatype ConvarOp =
    | Ask(slot: int, name: string, token: nat, owner: Name, handler: Handler, now: int, cookie: nat, sent: bool, listening: bool)
    | Respond(slot: int, cookie: nat, status: int, name: string, value: string, reach: Reach)
    | Sweep(now: int, reaches: nat -> Reach)
    | Connect(slot: int, reaches: nat -> Reach)
    | Ensure(slot: int, reaches: nat -> Reach)
    | Disconnect(slot: int, token: nat, reaches: nat -> Reach)
    | Unload(owner: Name)
    | Dispose(gone: seq<nat>)

  /** A point of a run: the queries and the callbacks so far, the connections, and the host's subscription counter. */
  datatype Moment = Moment(desk: Desk, books: E.Books, next: nat)

  // ---- one operation ----

  /** A cookie is drawn again while it is 0 or taken, so such a draw asks nothing. */
  predicate Free(d: Desk, cookie: nat) {
    cookie != 0 && cookie !in d.pending
  }

  predicate Granted(m: Moment, op: ConvarOp)
    requires op.Ask?
  {
    && Free(m.desk, op.cookie)
    && 0 <= op.slot < SLOTS && GoodName(op.name) && Holds(m.books.entries, op.slot, op.token)
    && |m.desk.pending| < MAX_PENDING && NoNul(op.name) && op.sent && op.listening
  }

  /** The reply names a query that waits for one, on the slot it went to and under its name. */
  predicate Heard(m: Moment, op: ConvarOp)
    requires op.Respond?
  {
    op.cookie in m.desk.pending && Answers(m.desk.pending[op.cookie], op.slot, op.name)
  }

  /** Such a reply, from the connection that was asked. */
  predicate Answering(m: Moment, op: ConvarOp, c: nat, outcome: Outcome) {
    && op.Respond? && op.cookie == c && Heard(m, op) && Holds(m.books.entries, op.slot, m.desk.pending[c].token)
    && outcome == Answered(op.status, op.value)
  }

  /** What an operation settles, and with what. */
  function Settling(m: Moment, op: ConvarOp): map<nat, Outcome> {
    match op
    case Respond(slot, cookie, status, name, value, _) =>
      if !Heard(m, op) then map[]
      else map[cookie := if Holds(m.books.entries, slot, m.desk.pending[cookie].token) then Answered(status, value) else Cancelled]
    case Sweep(now, _) => Due(m.desk.pending, m.books.entries, now)
    case Connect(slot, _) => if 0 <= slot < SLOTS && slot in m.books.entries then Open(m.desk.pending, slot) else map[]
    case Disconnect(slot, token, _) => if Holds(m.books.entries, slot, token) then Open(m.desk.pending, slot) else map[]
    case _ => map[]
  }

  function ReachOf(op: ConvarOp): nat -> Reach {
    match op
    case Respond(_, _, _, _, _, reach) => Everywhere(reach)
    case Sweep(_, reaches) => reaches
    case Connect(_, reaches) => reaches
    case Disconnect(_, _, reaches) => reaches
    case _ => Everywhere(Skips)
  }

  function BooksAfter(b: E.Books, op: ConvarOp): E.Books {
    match op
    case Connect(slot, _) => if 0 <= slot < SLOTS then E.Mint(b, slot, 0) else b
    case Ensure(slot, _) => if slot !in b.entries && 0 <= slot < SLOTS then E.Mint(b, slot, 0) else b
    case Disconnect(slot, token, _) => if Holds(b.entries, slot, token) then b.(entries := b.entries - {slot}) else b
    case _ => b
  }

  /** The queries an operation takes away unsettled. */
  predicate TakenAway(q: Query, op: ConvarOp) {
    match op
    case Unload(owner) => q.owner == owner
    case Dispose(gone) => q.subId in gone
    case _ => false
  }

  /** Exactly what an operation does. */
  ghost predicate Did(before: Moment, op: ConvarOp, after: Moment) {
    && after.books == BooksAfter(before.books, op)
    && after.next == before.next + (if op.Ask? && Granted(before, op) then 1 else 0)
    && match op
       case Ask(slot, name, token, owner, _, now, cookie, _, _) =>
         after.desk == if !Granted(before, op) then before.desk
                       else Desk(before.desk.pending[cookie := Query(slot, token, name, owner, before.next, now + TIMEOUT, None)],
                                 before.desk.log)
       case Unload(_) => after.desk == Remaining(before.desk, op)
       case Dispose(_) => after.desk == Remaining(before.desk, op)
       case _ => Settles(before.desk, after.desk, Settling(before, op), ReachOf(op))
  }

  function Remaining(d: Desk, op: ConvarOp): Desk {
    Desk(map c | c in d.pending && !TakenAway(d.pending[c], op) :: d.pending[c], d.log)
  }

  // ---- how a query leaves ----

  /** It was called back in this step; its owner was not live any more, so the callback was passed over; or it was torn down. */
  ghost predicate Left(before: Moment, op: ConvarOp, after: Moment, c: nat)
    requires c in before.desk.pending
  {
    var due := Settling(before, op);
    || (c in due && ReachOf(op)(c).Runs? && CalledBack(after.desk.log, |before.desk.log|, c, due[c]))
    || (c in due && ReachOf(op)(c).Skips?)
    || TakenAway(before.desk.pending[c], op)
  }

  /** A query leaves in a step exactly if one of these happens to it. */
  lemma {:induction false} LeavesExactly(before: Moment, op: ConvarOp, after: Moment, c: nat)
    requires Did(before, op, after) && c in before.desk.pending
    ensures c !in after.desk.pending <==> Left(before, op, after, c)
  {
    hide GoodName, NoNul, Heard, Holds, Due, Open;
    SettlingPending(before, op);
    hide Settling;
    assert TakenAway(before.desk.pending[c], op) ==> op.Unload? || op.Dispose?;
    if c in Settling(before, op) && ReachOf(op)(c).Runs? {
      assert CalledBack(after.desk.log, |before.desk.log|, c, Settling(before, op)[c]);
    }
  }

  /** Only pending queries are settled, a recorded outcome with itself. */
  lemma {:induction false} SettlingPending(m: Moment, op: ConvarOp)
    ensures forall c | c in Settling(m, op) :: c in m.desk.pending
    ensures Faithful(m.desk.pending, Settling(m, op))
    ensures op.Ask? || op.Unload? || op.Dispose? ==> Settling(m, op) == map[]
  {
  }

  /** A query that stays is the query it was; its outcome is recorded only by a settlement that found the isolate busy. */
  ghost predicate Stays(before: Query, after: Query) {
    after.(outcome := before.outcome) == before && (before.outcome.Some? ==> after.outcome == before.outcome)
  }

  lemma {:induction false} StepStays(before: Moment, op: ConvarOp, after: Moment, c: nat)
    requires Did(before, op, after) && c in before.desk.pending && c in after.desk.pending
    ensures Stays(before.desk.pending[c], after.desk.pending[c])
    ensures after.desk.pending[c] != before.desk.pending[c] ==>
              c in Settling(before, op) && after.desk.pending[c].outcome == Some(Settling(before, op)[c])
  {
    hide GoodName, NoNul;
    SettlingPending(before, op);
    hide Settling;
  }

  lemma {:induction false} Arrives(before: Moment, op: ConvarOp, after: Moment, c: nat)
    requires Did(before, op, after) && c !in before.desk.pending && c in after.desk.pending
    ensures op.Ask? && op.cookie == c && Granted(before, op) && after.desk.pending[c].outcome.None? && after.desk.pending[c].subId == before.next < after.next
  {
    hide Granted, Settling;
  }

  /** Every callback of a step is of a query that it settled and that is then gone, and no query gets two. */
  lemma {:induction false} LogGrows(before: Moment, op: ConvarOp, after: Moment)
    requires Did(before, op, after)
    ensures before.desk.log <= after.desk.log
    ensures forall j | |before.desk.log| <= j < |after.desk.log| ::
              var d := after.desk.log[j];
              && d.cookie in Settling(before, op) && ReachOf(op)(d.cookie).Runs? && d.outcome == Settling(before, op)[d.cookie]
              && d.cookie in before.desk.pending && d.cookie !in after.desk.pending
    ensures forall j, k | |before.desk.log| <= j < k < |after.desk.log| :: after.desk.log[j].cookie != after.desk.log[k].cookie
  {
    hide Granted;
    SettlingPending(before, op);
    hide Settling;
  }

  /** The only source of an answer is a matching reply. */
  lemma {:induction false} SettlesAnswered(m: Moment, op: ConvarOp, c: nat)
    requires c in Settling(m, op) && Settling(m, op)[c].Answered?
    ensures c in m.desk.pending
    ensures m.desk.pending[c].outcome == Some(Settling(m, op)[c]) || Answering(m, op, c, Settling(m, op)[c])
  {
  }

  // ---- whole runs ----

  /** A run, moment by moment. */
  ghost predicate Traced(trace: seq<Moment>, ops: seq<ConvarOp>) {
    |trace| == |ops| + 1 && forall k | 0 <= k < |ops| :: Did(trace[k], ops[k], trace[k + 1])
  }

  lemma {:induction false} At(trace: seq<Moment>, ops: seq<ConvarOp>, k: nat)
    requires Traced(trace, ops) && k < |ops|
    ensures |trace| == |ops| + 1 && Did(trace[k], ops[k], trace[k + 1])
  {
  }

  /** The query leaves in this step, in one of the ways there are. */
  ghost predicate LeftAt(trace: seq<Moment>, ops: seq<ConvarOp>, k: nat, q: Query, c: nat)
    requires Traced(trace, ops) && k < |ops|
  {
    && c in trace[k].desk.pending && Stays(q, trace[k].desk.pending[c])
    && c !in trace[k + 1].desk.pending && Left(trace[k], ops[k], trace[k + 1], c)
  }

  /** A query pending at one moment and gone at a later one left in a step between them: it was called back in that step,
      passed over because its owner was not live, or torn down. */
  lemma {:induction false} LeavesOnce(trace: seq<Moment>, ops: seq<ConvarOp>, k: nat, n: nat, c: nat)
    requires Traced(trace, ops) && k <= n <= |ops| && c in trace[k].desk.pending && c !in trace[n].desk.pending
    ensures exists m | k <= m < n :: LeftAt(trace, ops, m, trace[k].desk.pending[c], c)
    decreases n - k
  {
    hide Did, Left, Traced;
    At(trace, ops, k);
    if c !in trace[k + 1].desk.pending {
      LeavesExactly(trace[k], ops[k], trace[k + 1], c);
      assert LeftAt(trace, ops, k, trace[k].desk.pending[c], c);
    } else {
      StepStays(trace[k], ops[k], trace[k + 1], c);
      LeavesOnce(trace, ops, k + 1, n, c);
      var m :| k + 1 <= m < n && LeftAt(trace, ops, m, trace[k + 1].desk.pending[c], c);
      assert LeftAt(trace, ops, m, trace[k].desk.pending[c], c);
    }
  }

  /** No query outlives its deadline: it is gone after the first sweep past it that finds the isolate free, if not before. */
  lemma {:induction false} SettledInTime(trace: seq<Moment>, ops: seq<ConvarOp>, k: nat, n: nat, c: nat)
    requires Traced(trace, ops) && k <= n < |ops| && c in trace[k].desk.pending
    requires ops[n].Sweep? && ops[n].now >= trace[k].desk.pending[c].deadline && !ops[n].reaches(c).Busy?
    ensures exists m | k <= m <= n :: LeftAt(trace, ops, m, trace[k].desk.pending[c], c)
    decreases n - k
  {
    hide Did, Left, Traced;
    At(trace, ops, k);
    LeavesExactly(trace[k], ops[k], trace[k + 1], c);
    if c !in trace[k + 1].desk.pending {
      assert LeftAt(trace, ops, k, trace[k].desk.pending[c], c);
    } else {
      StepStays(trace[k], ops[k], trace[k + 1], c);
      if k == n {
        SweepTakes(trace[k], ops[k], trace[k + 1], c);
      } else {
        SettledInTime(trace, ops, k + 1, n, c);
        var m :| k + 1 <= m <= n && LeftAt(trace, ops, m, trace[k + 1].desk.pending[c], c);
        assert LeftAt(trace, ops, m, trace[k].desk.pending[c], c);
      }
    }
  }

  lemma {:induction false} SweepTakes(before: Moment, op: ConvarOp, after: Moment, c: nat)
    requires Did(before, op, after) && op.Sweep? && c in before.desk.pending
    requires op.now >= before.desk.pending[c].deadline && !op.reaches(c).Busy?
    ensures c !in after.desk.pending
  {
  }

  ghost predicate NoneAnswered(d: Desk) {
    forall c | c in d.pending && d.pending[c].outcome.Some? :: !d.pending[c].outcome.value.Answered?
  }

  /** An earlier reply gave this outcome, with the slot, the name and the connection it was asked of. */
  ghost predicate AnsweredBefore(trace: seq<Moment>, ops: seq<ConvarOp>, n: nat, c: nat, outcome: Outcome)
    requires |trace| == |ops| + 1 && n <= |ops|
  {
    exists m | 0 <= m < n :: Answering(trace[m], ops[m], c, outcome)
  }

  lemma {:induction false} RecordedAnswer(trace: seq<Moment>, ops: seq<ConvarOp>, n: nat, c: nat)
    requires Traced(trace, ops) && NoneAnswered(trace[0].desk) && n <= |ops|
    requires c in trace[n].desk.pending && trace[n].desk.pending[c].outcome.Some? && trace[n].desk.pending[c].outcome.value.Answered?
    ensures AnsweredBefore(trace, ops, n, c, trace[n].desk.pending[c].outcome.value)
  {
    hide Did, Answering, Settling, Traced;
    if n > 0 {
      var p := n - 1;
      At(trace, ops, p);
      var o := trace[n].desk.pending[c].outcome;
      if c !in trace[p].desk.pending {
        Arrives(trace[p], ops[p], trace[n], c);
      }
      StepStays(trace[p], ops[p], trace[n], c);
      if trace[p].desk.pending[c].outcome == o {
        RecordedAnswer(trace, ops, p, c);
      } else {
        SettlesAnswered(trace[p], ops[p], c);
      }
    }
  }

  /** Every answer that was called back is that of an earlier reply from the connection asked, about the slot and the name
      asked. */
  lemma {:induction false} AnswerIsReply(trace: seq<Moment>, ops: seq<ConvarOp>, n: nat, j: nat)
    requires Traced(trace, ops) && NoneAnswered(trace[0].desk) && n <= |ops|
    requires |trace[0].desk.log| <= j < |trace[n].desk.log| && trace[n].desk.log[j].outcome.Answered?
    ensures AnsweredBefore(trace, ops, n, trace[n].desk.log[j].cookie, trace[n].desk.log[j].outcome)
  {
    hide Did, Answering, Settling, Traced;
    if n > 0 {
      var p := n - 1;
      At(trace, ops, p);
      var d := trace[n].desk.log[j];
      LogGrows(trace[p], ops[p], trace[n]);
      if j < |trace[p].desk.log| {
        AnswerIsReply(trace, ops, p, j);
      } else {
        SettlesAnswered(trace[p], ops[p], d.cookie);
        if trace[p].desk.pending[d.cookie].outcome == Some(d.outcome) {
          RecordedAnswer(trace, ops, p, d.cookie);
        }
      }
    }
  }

  /** The query leaves in this step, and if a settlement takes it then with this outcome. */
  ghost predicate LeftWith(trace: seq<Moment>, ops: seq<ConvarOp>, k: nat, c: nat, outcome: Outcome)
    requires Traced(trace, ops) && k < |ops|
  {
    && c in trace[k].desk.pending && c !in trace[k + 1].desk.pending && Left(trace[k], ops[k], trace[k + 1], c)
    && (c in Settling(trace[k], ops[k]) ==> Settling(trace[k], ops[k])[c] == outcome)
  }

  /** A matching reply is what the callback gets, however long the isolate is busy: nothing later replaces it with null or with
      another reply. */
  lemma {:induction false} ReplyKept(trace: seq<Moment>, ops: seq<ConvarOp>, k: nat, n: nat, c: nat, outcome: Outcome)
    requires Traced(trace, ops) && k < n <= |ops| && Answering(trace[k], ops[k], c, outcome) && c !in trace[n].desk.pending
    ensures exists m | k <= m < n :: LeftWith(trace, ops, m, c, outcome)
  {
    hide Did, Left, Traced;
    At(trace, ops, k);
    if c !in trace[k + 1].desk.pending {
      LeavesExactly(trace[k], ops[k], trace[k + 1], c);
      assert LeftWith(trace, ops, k, c, outcome);
    } else {
      Recorded(trace[k], ops[k], trace[k + 1], c, outcome);
      LeavesOnce(trace, ops, k + 1, n, c);
      var m :| k + 1 <= m < n && LeftAt(trace, ops, m, trace[k + 1].desk.pending[c], c);
      SettlingPending(trace[m], ops[m]);
      assert LeftWith(trace, ops, m, c, outcome);
    }
  }

  lemma {:induction false} Recorded(before: Moment, op: ConvarOp, after: Moment, c: nat, outcome: Outcome)
    requires Did(before, op, after) && Answering(before, op, c, outcome) && c in after.desk.pending
    ensures after.desk.pending[c].outcome == Some(outcome)
  {
  }

  // ---- the run law ----

  /** A cookie is minted once. */
  ghost predicate Unused(op: ConvarOp, minted: set<nat>) {
    op.Ask? ==> op.cookie != 0 && op.cookie !in minted
  }

  ghost function MintedAfter(op: ConvarOp, minted: set<nat>): set<nat> {
    if op.Ask? then minted + {op.cookie} else minted
  }

  /** The host's subscription counter is ahead of every query. */
  ghost predicate Ahead(m: Moment) {
    forall c | c in m.desk.pending :: m.desk.pending[c].subId < m.next
  }

  lemma {:induction false} StaysAhead(before: Moment, op: ConvarOp, after: Moment)
    requires Did(before, op, after) && Ahead(before)
    ensures Ahead(after)
  {
    assert after.next >= before.next;
    hide Did;
    forall c | c in after.desk.pending ensures after.desk.pending[c].subId < after.next {
      if c in before.desk.pending {
        StepStays(before, op, after, c);
      } else {
        Arrives(before, op, after, c);
      }
    }
  }

  lemma {:induction false} DidFollows(before: Moment, op: ConvarOp, after: Moment, minted: set<nat>)
    requires Did(before, op, after) && Orderly(before.desk, minted) && Unused(op, minted)
    ensures Follows(before.desk, after.desk, minted) && Orderly(after.desk, MintedAfter(op, minted))
  {
    hide Granted, Settling, Settles, Orderly, Follows, Faithful;
    SettlingPending(before, op);
    RemovalFollows(before.desk, before.desk, minted);
    MoreMinted(before.desk, minted, MintedAfter(op, minted));
    if op.Ask? {
      if Granted(before, op) {
        AskFollows(before.desk, minted, op.cookie, after.desk.pending[op.cookie]);
      }
    } else if op.Unload? || op.Dispose? {
      RemovalFollows(before.desk, after.desk, minted);
    } else {
      SettlesFollow(before.desk, after.desk, Settling(before, op), ReachOf(op), minted);
    }
  }

  lemma {:induction false} MoreMinted(d: Desk, minted: set<nat>, more: set<nat>)
    requires Orderly(d, minted) && minted <= more
    ensures Orderly(d, more)
  {
  }

  ghost predicate DistinctCookies(ops: seq<ConvarOp>, minted: set<nat>) {
    && (forall i | 0 <= i < |ops| :: Unused(ops[i], minted))
    && (forall i, j | 0 <= i < j < |ops| && ops[i].Ask? && ops[j].Ask? :: ops[i].cookie != ops[j].cookie)
  }

  ghost function AllMinted(ops: seq<ConvarOp>, minted: set<nat>): set<nat> {
    if ops == [] then minted else MintedAfter(ops[|ops| - 1], AllMinted(ops[..|ops| - 1], minted))
  }

  lemma {:induction false} MintedIs(ops: seq<ConvarOp>, n: nat, minted: set<nat>)
    requires n <= |ops|
    ensures minted <= AllMinted(ops[..n], minted)
    ensures forall c | c in AllMinted(ops[..n], minted) :: c in minted || exists i :: 0 <= i < n && ops[i].Ask? && ops[i].cookie == c
  {
    if n > 0 {
      MintedIs(ops, n - 1, minted);
      assert ops[..n][..n - 1] == ops[..n - 1] && ops[..n][n - 1] == ops[n - 1];
    }
  }

  /** With distinct cookies the run law holds between the first moment and every later one. */
  lemma {:induction false} TraceFollows(trace: seq<Moment>, ops: seq<ConvarOp>, n: nat, minted: set<nat>)
    requires Traced(trace, ops) && n <= |ops| && Orderly(trace[0].desk, minted) && DistinctCookies(ops, minted)
    ensures Orderly(trace[n].desk, AllMinted(ops[..n], minted)) && Follows(trace[0].desk, trace[n].desk, minted)
  {
    hide Did, Orderly, Follows;
    if n == 0 {
      RemovalFollows(trace[0].desk, trace[0].desk, minted);
    } else {
      var p := n - 1;
      var more := AllMinted(ops[..p], minted);
      TraceFollows(trace, ops, p, minted);
      At(trace, ops, p);
      MintedIs(ops, p, minted);
      assert Unused(ops[p], more);
      DidFollows(trace[p], ops[p], trace[n], more);
      FollowsChain(trace[0].desk, trace[p].desk, trace[n].desk, minted, more);
      assert ops[..n][..p] == ops[..p] && ops[..n][p] == ops[p];
    }
  }

  // ---- in plain terms ----

  /** The same letter, or the two cases of one letter from A to Z. */
  predicate Alike(a: char, b: char) {
    a == b || ('A' <= a <= 'Z' && b as int == a as int + 32) || ('A' <= b <= 'Z' && a as int == b as int + 32)
  }

  /** What may befall a pending query: a reply about its cookie, slot and name, its time running out or its connection ending, and its
      teardown. With an outcome recorded only a sweep that finds the isolate free and the teardown are left. */
  ghost predicate Befalls(m: Moment, op: ConvarOp, c: nat)
    requires c in m.desk.pending
  {
    var q, connections := m.desk.pending[c], m.books.entries;
    match op
    case Ask(_, _, _, _, _, _, _, _, _) => false
    case Ensure(_, _) => false
    case Respond(slot, cookie, _, name, _, _) =>
      q.outcome.None? && cookie == c && q.slot == slot && |q.name| == |name| && forall i | 0 <= i < |name| :: Alike(q.name[i], name[i])
    case Sweep(now, reaches) =>
      if q.outcome.Some? then !reaches(c).Busy?
      else now >= q.deadline || q.token == 0 || q.slot !in connections || connections[q.slot].id != q.token
    case Connect(slot, _) => q.outcome.None? && q.slot == slot && 0 <= slot < 64 && slot in connections
    case Disconnect(slot, token, _) => q.outcome.None? && q.slot == slot && slot in connections && connections[slot].id == token != 0
    case Unload(owner) => q.owner == owner
    case Dispose(gone) => q.subId in gone
  }

  lemma {:induction false} SameNameExactly(a: string, b: string)
    ensures SameName(a, b) <==> |a| == |b| && forall i | 0 <= i < |b| :: Alike(a[i], b[i])
  {
    forall i | 0 <= i < |a| && i < |b| ensures Lower(a[i]) == Lower(b[i]) <==> Alike(a[i], b[i]) {
    }
  }

  /** A query leaves or changes in a step exactly if one of these befalls it: in particular a sweep leaves alone what is neither late nor
      disconnected, and a connection ends the queries of its own slot only. */
  lemma {:induction false} ChangesExactly(before: Moment, op: ConvarOp, after: Moment, c: nat)
    requires Did(before, op, after) && c in before.desk.pending
    ensures c !in after.desk.pending || after.desk.pending[c] != before.desk.pending[c] <==> Befalls(before, op, c)
  {
    hide GoodName, NoNul, SameName;
    if op.Respond? {
      SameNameExactly(before.desk.pending[c].name, op.name);
    }
  }

  lemma {:induction false} ByteLengthNext(name: string, c: char)
    ensures ByteLength("") == 0
    ensures ByteLength(name + [c]) == ByteLength(name)
            + if c as int < 0x80 then 1 else if c as int < 0x800 then 2 else if c as int < 0x1_0000 then 3 else 4
  {
    if name == "" {
      assert [c][1..] == "" && name + [c] == [c];
    } else {
      ByteLengthNext(name[1..], c);
      assert (name + [c])[1..] == name[1..] + [c];
    }
  }

  /** When a query is asked, and which: under a cookie of its own, of a connected client, by a name of 1 to 255 bytes without blanks
      and NUL, with fewer than 1024 pending, and for 15 seconds. */
  lemma {:induction false} AskExactly(before: Moment, op: ConvarOp, after: Moment)
    requires Did(before, op, after) && op.Ask?
    ensures var asked := && op.cookie != 0 && op.cookie !in before.desk.pending
                         && 0 <= op.slot < 64 && op.token != 0
                         && op.slot in before.books.entries && before.books.entries[op.slot].id == op.token
                         && 1 <= |op.name| && ByteLength(op.name) <= 255
                         && (forall i | 0 <= i < |op.name| :: op.name[i] as int !in {0, 9, 10, 12, 13, 32})
                         && |before.desk.pending| < 1024 && op.sent && op.listening;
            && after.desk.log == before.desk.log && after.next == before.next + (if asked then 1 else 0)
            && after.desk.pending ==
               if asked
               then before.desk.pending[op.cookie := Query(op.slot, op.token, op.name, op.owner, before.next, op.now + 15000, None)]
               else before.desk.pending
  {
    assert forall i | 0 <= i < |op.name| :: (op.name[i] as int in {0, 9, 10, 12, 13, 32} <==> Whitespace(op.name[i]) || op.name[i] == 0 as char);
  }

  /** What an operation does to the connections: a slot gets the next token when a client connects or is found unknown, and loses it when
      that very connection ends. */
  lemma {:induction false} ConnectionsExactly(before: Moment, op: ConvarOp, after: Moment, slot: int)
    requires Did(before, op, after)
    ensures var was, now := before.books, after.books;
            var begun := (op.Connect? && op.slot == slot && 0 <= slot < 64)
                         || (op.Ensure? && op.slot == slot && 0 <= slot < 64 && slot !in was.entries);
            var ended := op.Disconnect? && op.slot == slot && slot in was.entries && was.entries[slot].id == op.token != 0;
            && (slot in now.entries <==> begun || (slot in was.entries && !ended))
            && (begun ==> now.entries[slot] == E.Entry(was.next, 0) && now.next == was.next + 1)
            && (slot in now.entries && !begun ==> now.entries[slot] == was.entries[slot])
  {
    hide Granted, Settles, Settling;
  }
}
