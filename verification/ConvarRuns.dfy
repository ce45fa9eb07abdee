/** Any run of queries, answers, connections, disconnections, sweeps and teardowns, on the real desk. */
module ConvarRuns {
  import opened ConvarSpec
  import opened Convars
  import opened ConvarTrace
  import E = EntitySpec

  ghost function Now(desk: ConvarDesk, next: nat): Moment
    reads desk, desk.connections
  {
    Moment(desk.Desk(), desk.connections.Contents(), next)
  }

  ghost predicate Ready(desk: ConvarDesk, next: nat)
    reads desk, desk.versions, desk.store, desk.store.owned, desk.connections
  {
    Good(desk) && Ahead(Now(desk, next))
  }

  lemma {:induction false} NewSubId(desk: ConvarDesk, next: nat)
    requires Ready(desk, next)
    ensures next !in desk.store.ids
  {
  }

  ghost predicate Good(desk: ConvarDesk)
    reads desk, desk.versions, desk.store, desk.store.owned, desk.connections
  {
    desk.Valid() && E.Minted(desk.connections.Contents())
  }

  /** Every operation on the real desk does exactly what is specified. */
  method Step(desk: ConvarDesk, op: ConvarOp, next: nat) returns (next': nat)
    requires Ready(desk, next)
    modifies desk, desk.versions, desk.store, desk.store.owned, desk.connections
    ensures Ready(desk, next') && fresh(desk.store.owned - old(desk.store.owned))
    ensures Did(old(Now(desk, next)), op, Now(desk, next'))
  {
    hide Good, Did, Ahead;
    ghost var before := Now(desk, next);
    if op.Ask? {
      next' := StepAsk(desk, op, next);
    } else if op.Respond? || op.Sweep? {
      StepReply(desk, op, next);
      next' := next;
    } else if op.Unload? || op.Dispose? {
      StepTeardown(desk, op, next);
      next' := next;
    } else {
      StepConnection(desk, op, next);
      next' := next;
    }
    StaysAhead(before, op, Now(desk, next'));
  }

  method StepAsk(desk: ConvarDesk, op: ConvarOp, next: nat) returns (next': nat)
    requires Ready(desk, next) && op.Ask?
    modifies desk, desk.versions, desk.store, desk.store.owned
    ensures Good(desk) && fresh(desk.store.owned - old(desk.store.owned))
    ensures Did(old(Now(desk, next)), op, Now(desk, next'))
  {
    hide ConvarDesk.Valid;
    NewSubId(desk, next);
    if op.cookie == 0 || op.cookie in desk.pending {
      return next;
    }
    var answer := desk.QueryConvar(
      op.slot, op.name, op.token, op.owner, op.handler, op.now, op.cookie, next, op.sent, op.listening);
    next' := if answer != 0 then next + 1 else next;
  }

  method StepReply(desk: ConvarDesk, op: ConvarOp, ghost next: nat)
    requires Good(desk) && (op.Respond? || op.Sweep?)
    modifies desk, desk.versions, desk.store, desk.store.owned
    ensures Good(desk) && desk.store.owned == old(desk.store.owned)
    ensures Did(old(Now(desk, next)), op, Now(desk, next))
  {
    hide ConvarDesk.Valid, Settles, Due;
    if op.Respond? {
      ghost var due := desk.DispatchResponse(op.slot, op.cookie, op.status, op.name, op.value, op.reach);
    } else {
      desk.Sweep(op.now, op.reaches);
    }
  }

  method StepConnection(desk: ConvarDesk, op: ConvarOp, ghost next: nat)
    requires Good(desk) && (op.Connect? || op.Ensure? || op.Disconnect?)
    modifies desk, desk.versions, desk.store, desk.store.owned, desk.connections
    ensures Good(desk) && desk.store.owned == old(desk.store.owned)
    ensures Did(old(Now(desk, next)), op, Now(desk, next))
  {
    hide ConvarDesk.Valid, Settles, Open;
    SettlesNone(desk.Desk(), ReachOf(op));
    match op {
      case Connect(slot, reaches) => var _ := desk.Begin(slot, reaches);
      case Ensure(slot, reaches) => var _ := desk.Ensure(slot, reaches);
      case Disconnect(slot, token, reaches) => desk.End(slot, token, reaches);
      case _ =>
    }
  }

  method StepTeardown(desk: ConvarDesk, op: ConvarOp, ghost next: nat)
    requires Good(desk) && (op.Unload? || op.Dispose?)
    modifies desk, desk.versions, desk.store, desk.store.owned
    ensures Good(desk) && desk.store.owned == old(desk.store.owned)
    ensures Did(old(Now(desk, next)), op, Now(desk, next))
  {
    hide ConvarDesk.Valid;
    if op.Unload? {
      desk.TeardownOwner(op.owner);
    } else {
      desk.Dispose(op.gone);
    }
  }

  /** Over any run: what happens is specified moment by moment, and the pending table and the subscriptions stay paired. If the
      cookies are distinct, a query is called back at most once and is then gone for good, and an outcome once recorded is the
      outcome delivered. */
  method Play(desk: ConvarDesk, ops: seq<ConvarOp>, first: nat) returns (next: nat, ghost trace: seq<Moment>)
    requires Ready(desk, first)
    modifies desk, desk.versions, desk.store, desk.store.owned, desk.connections
    ensures Ready(desk, next)
    ensures Traced(trace, ops) && trace[0] == old(Now(desk, first)) && trace[|ops|] == Now(desk, next)
    ensures forall minted: set<nat> | Orderly(old(desk.Desk()), minted) && DistinctCookies(ops, minted) ::
              Orderly(desk.Desk(), AllMinted(ops, minted)) && Follows(old(desk.Desk()), desk.Desk(), minted)
  {
    hide Good, Ahead, Did, Follows, Orderly, DistinctCookies;
    next := first;
    trace := [Now(desk, next)];
    for k := 0 to |ops|
      invariant Ready(desk, next) && fresh(desk.store.owned - old(desk.store.owned))
      invariant Traced(trace, ops[..k]) && trace[0] == old(Now(desk, first)) && trace[k] == Now(desk, next)
    {
      next := Step(desk, ops[k], next);
      trace := trace + [Now(desk, next)];
    }
    assert ops[..|ops|] == ops;
    forall minted: set<nat> | Orderly(old(desk.Desk()), minted) && DistinctCookies(ops, minted)
      ensures Orderly(desk.Desk(), AllMinted(ops, minted)) && Follows(old(desk.Desk()), desk.Desk(), minted) {
      TraceFollows(trace, ops, |ops|, minted);
    }
  }
}
