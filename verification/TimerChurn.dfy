/** Driving a timer queue through any sequence of operations, as the churn test does. */
module TimerChurn {
  import opened TimerSpec
  import opened TimerQueues
  import opened TimerRuns
  import TimerHeap
  import TimerListing

  /** One operation on the real queue. `ok` is false where pushing panics. */
  method Perform(q: TimerQueue, op: Op) returns (reply: Reply, ok: bool)
    requires q.Valid()
    modifies q
    ensures q.Valid()
    ensures ok <==> !(op.Push? && old(q.nextSequence) == U64_MAX)
    ensures !ok ==> q.examined == old(q.examined)
    ensures ok ==> var before := State(old(q.Pending()), old(q.nextSequence));
                   && State(q.Pending(), q.nextSequence) == Apply(before, op)
                   && reply == Answer(before, op)
                   && q.examined == old(q.examined) + Work(before, op)
  {
    hide TimerHeap.Holds, TimerHeap.HeapOrdered, TimerHeap.Counted, TimerHeap.Indexed, TimerListing.Keyed, TimerListing.Listing;
    ok := true;
    match op
    case Push(id, kind) =>
      ok := q.Push(id, kind);
      reply := Pushed;
    case Remove(id) =>
      var found := q.Remove(id);
      reply := Removed(found);
    case Due(now, frame) =>
      var ids := q.Due(now, frame);
      reply := Fired(ids);
    case DueLimited(now, frame, limit) =>
      var ids := q.DueLimited(now, frame, limit);
      reply := Fired(ids);
    case Length =>
      var n := q.Len();
      reply := Counted(n);
  }

  lemma {:induction false} RunStart(start: State, ops: seq<Op>, clock: (Instant, nat))
    requires Nondecreasing(clock, ops) && start == State([], 0)
    ensures Answers(start, ops) == LinearRun([], ops)
    ensures After(start, ops[..0]) == start && Answers(start, ops[..0]) == [] && TotalWork(start, ops[..0]) == 0
  {
    RunAgrees(start, ops, clock);
  }

  /** A fresh queue answers every operation of a run exactly as the plain list does, until the insertion
      sequence is exhausted; it visits at most one entry per push and one per drain on the way. */
  method MatchesList(ops: seq<Op>, ghost clock: (Instant, nat)) returns (replies: seq<Reply>, exhausted: bool, visited: nat)
    requires Nondecreasing(clock, ops)
    ensures |replies| <= |ops| && replies == LinearRun([], ops)[..|replies|]
    ensures exhausted <==> |replies| < |ops|
    ensures exhausted ==> ops[|replies|].Push? && Pushes(ops[..|replies|]) == U64_MAX
    ensures visited == TotalWork(State([], 0), ops[..|replies|])
    ensures visited <= Pushes(ops[..|replies|]) + Drainage(ops[..|replies|])
  {
    hide TimerHeap.Holds, TimerHeap.HeapOrdered, TimerHeap.Counted, TimerHeap.Indexed, TimerListing.Keyed, TimerListing.Listing;
    hide Apply, Answer, Work, After, Answers, TotalWork, LinearRun, Nondecreasing;
    var q := new TimerQueue();
    ghost var start := State([], 0);
    RunStart(start, ops, clock);
    replies, exhausted := [], false;
    while |replies| < |ops|
      invariant |replies| <= |ops| && q.Valid() && fresh(q)
      invariant State(q.Pending(), q.nextSequence) == After(start, ops[..|replies|])
      invariant replies == Answers(start, ops[..|replies|])
      invariant q.examined == TotalWork(start, ops[..|replies|])
      decreases |ops| - |replies|
    {
      ghost var done := ops[..|replies|];
      var op := ops[|replies|];
      var reply, ok := Perform(q, op);
      if !ok {
        NextCountsPushes(start, done);
        exhausted := true;
        break;
      }
      RunSnoc(start, done, op);
      assert done + [op] == ops[..|replies| + 1];
      replies := replies + [reply];
    }
    PrefixAgrees(start, ops, |replies|);
    WorkBounded(start, ops[..|replies|]);
    assert Unready(start.pending) == 0;
    visited := q.examined;
  }
}
