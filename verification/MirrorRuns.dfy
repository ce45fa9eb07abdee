/** Any run of store mutations and events, on the real store, mirror and multiplexer: what subscribers see is the fan-out
    from the store itself. */
module MirrorRuns {
  import opened JsValues
  import opened Options
  import opened Multiplexer
  import opened ChannelSpec
  import opened ChannelStore
  import opened MuxScript
  import opened MuxRealm
  import opened MuxMirror
  import opened Fanout

  // ---- the log, payload classes aside ----

  ghost function BareEvent(e: Event): Event {
    match e
    case Offered(depth, sub) => Offered(depth, Bare(sub))
    case Called(depth, sub) => Called(depth, Bare(sub))
    case Failed(depth, sub) => Failed(depth, Bare(sub))
  }

  ghost function BareLog(log: seq<Event>): (r: seq<Event>)
    ensures |r| == |log|
    ensures forall i | 0 <= i < |log| :: r[i] == BareEvent(log[i])
  {
    seq(|log|, i requires 0 <= i < |log| => BareEvent(log[i]))
  }

  lemma {:induction false} BareLogged(log: seq<Event>, e: Event)
    ensures BareLog(log + [e]) == BareLog(log) + [BareEvent(e)]
  {
  }

  // ---- the objects ----

  ghost predicate Steady(store: Channels, versions: Versions, mirror: Mirror, next: nat)
    reads store, store.owned, versions, mirror`pushed, mirror`pruned, mirror.mux`kinds, mirror.mux`seen, mirror.mux`arrays, mirror.mux.arrays
  {
    && store.Valid() && mirror.Valid() && store.version <= versions.last
    && Below(store.flat, next) && mirror.CoherentWith(store.version, store.flat)
  }

  ghost function Now(store: Channels, mirror: Mirror, next: nat): Fanned
    reads store`flat, mirror.mux`log
  {
    Fanned(store.flat, next, BareLog(mirror.mux.log))
  }

  lemma {:induction false} IdsBelow(store: Channels, next: nat)
    requires store.Valid() && Below(store.flat, next)
    ensures next !in store.ids
  {
  }

  /** One mutation of the store: it leaves the mirror coherent without touching it. */
  method Step(store: Channels, versions: Versions, mirror: Mirror, next: nat, op: StoreOp) returns (next': nat)
    requires Steady(store, versions, mirror, next)
    modifies store, versions, store.owned
    ensures Steady(store, versions, mirror, next') && fresh(store.owned - old(store.owned))
    ensures store.flat == Applied(old(store.flat), next, op) && next' == NextId(next, op)
  {
    hide Represents, Keep, Coherent, Below, Mux.Valid, Shows, Emptied, Channels.Sound, Renamed, Fresh;
    AppliedBelow(store.flat, next, op);
    next' := NextId(next, op);
    ghost var version, flat := store.version, store.flat;
    match op {
      case Subscribe(name, owner, handler) =>
        IdsBelow(store, next);
        var _ := store.Subscribe(versions, name, next, owner, handler);
      case RemoveByOwner(owner) => var _ := store.RemoveByOwner(versions, owner);
      case RemoveByIds(gone) => var _ := store.RemoveByIds(versions, gone);
      case RemoveByOwnerOn(name, owner) => var _ := store.RemoveByOwnerOn(versions, name, owner);
      case RemoveByName(name) => store.RemoveByName(versions, name);
      case Rename(from, to) => store.Rename(versions, from, to);
    }
    MutationKeepsCoherent(mirror.pushed, mirror.pruned, mirror.mux.seen, mirror.kind, version, flat, store.version, store.flat);
  }

  /** The way in, with the objects kept steady. */
  method Enter(store: Channels, versions: Versions, mirror: Mirror, next: nat, name: Name, deferred: bool, plugins: Plugins)
    returns (subs: array?<JsSub>, delivery: Delivery)
    requires Steady(store, versions, mirror, next)
    modifies mirror`pushed, mirror`pruned, mirror.mux`kinds, mirror.mux`seen, mirror.mux`arrays
    ensures Steady(store, versions, mirror, next)
    ensures fresh(mirror.mux.arrays - old(mirror.mux.arrays)) && old(mirror.mux.arrays) <= mirror.mux.arrays
    ensures var rows := Present(store.flat, name);
            if rows == [] then subs == null && delivery == Delivered
            else if deferred then subs == null && delivery == Deferred
            else subs != null && delivery == Delivered && subs in mirror.mux.arrays && Shows(subs[..], rows)
  {
    hide Channels.Valid, Mirror.Valid, Mirror.CoherentWith, Present, Shows, Below, Fresh;
    subs, delivery := mirror.Open(store, name, deferred, plugins.ctorOf, plugins.isLive);
  }

  /** One event, with handlers that change the store and raise events in turn: the walk over the cached array is the fan-out
      from the store, and the cache is coherent again when it returns. */
  method Cross(store: Channels, versions: Versions, mirror: Mirror, next: nat, depth: nat, name: Name, stopAt: StopAt,
               script: HostScript, deferred: bool, plugins: Plugins) returns (result: nat, delivery: Delivery, next': nat)
    requires Steady(store, versions, mirror, next)
    modifies store, versions, store.owned, mirror, mirror.mux
    ensures Steady(store, versions, mirror, next') && fresh(store.owned - old(store.owned))
    ensures fresh(mirror.mux.arrays - old(mirror.mux.arrays)) && old(mirror.mux.arrays) <= mirror.mux.arrays
    ensures FanDone(Now(store, mirror, next'), result, delivery)
            == FanOut(old(Now(store, mirror, next)), depth, name, stopAt, script, deferred)
    decreases script, 3
  {
    hide Steady, BareLog, Present, Shows, FanWalk;
    next', result := next, 0;
    var subs;
    subs, delivery := Enter(store, versions, mirror, next, name, deferred, plugins);
    if subs != null {
      ShownBare(subs[..], Present(store.flat, name));
      result, next' := WalkOver(store, versions, mirror, next, depth, subs, SubsOf(Present(store.flat, name)), stopAt, script);
    }
  }

  /** The walk over the captured array, which no handler can reach. */
  method WalkOver(store: Channels, versions: Versions, mirror: Mirror, next: nat, depth: nat, subs: array<JsSub>, ghost bare: seq<JsSub>,
                  stopAt: StopAt, script: HostScript) returns (result: nat, next': nat)
    requires Steady(store, versions, mirror, next)
    requires |bare| == subs.Length && forall k | 0 <= k < |bare| :: Bare(subs[k]) == bare[k]
    modifies store, versions, store.owned, mirror, mirror.mux
    ensures Steady(store, versions, mirror, next') && fresh(store.owned - old(store.owned))
    ensures fresh(mirror.mux.arrays - old(mirror.mux.arrays)) && old(mirror.mux.arrays) <= mirror.mux.arrays
    ensures FanDone(Now(store, mirror, next'), result, Delivered) == FanWalk(old(Now(store, mirror, next)), depth, bare, stopAt, script, 0, 0)
    decreases script, 2
  {
    hide Steady, BareLog, Cut, Gain, FanTurn, FanWalk;
    next', result := next, 0;
    var i := 0;
    while i < subs.Length && !Cut(stopAt, result)
      invariant i <= subs.Length
      invariant Steady(store, versions, mirror, next') && fresh(store.owned - old(store.owned))
      invariant fresh(mirror.mux.arrays - old(mirror.mux.arrays)) && old(mirror.mux.arrays) <= mirror.mux.arrays
      invariant FanWalk(Now(store, mirror, next'), depth, bare, stopAt, script, i, result)
                == FanWalk(old(Now(store, mirror, next)), depth, bare, stopAt, script, 0, 0)
    {
      FanWalkOn(Now(store, mirror, next'), depth, bare, stopAt, script, i, result);
      next' := Offer(store, versions, mirror, next', depth, subs[i], script, i);
      result := Collected(stopAt, script, i, result);
      i := i + 1;
    }
    FanWalkEnds(Now(store, mirror, next'), depth, bare, stopAt, script, i, result);
  }

  /** The result after one more subscriber. */
  method Collected(stopAt: StopAt, script: HostScript, i: nat, before: nat) returns (result: nat)
    ensures result == Max(before, Gain(Plain(script), stopAt, i))
  {
    result := before;
    if i < |script.reactions| && script.reactions[i].enters {
      result := Collect(stopAt, script.reactions[i].ending, before);
    }
  }

  /** One subscriber is offered the event; if let in, it is called and does what it does. */
  method Offer(store: Channels, versions: Versions, mirror: Mirror, next: nat, depth: nat, sub: JsSub, script: HostScript, i: nat)
    returns (next': nat)
    requires Steady(store, versions, mirror, next)
    modifies store, versions, store.owned, mirror, mirror.mux
    ensures Steady(store, versions, mirror, next') && fresh(store.owned - old(store.owned))
    ensures fresh(mirror.mux.arrays - old(mirror.mux.arrays)) && old(mirror.mux.arrays) <= mirror.mux.arrays
    ensures Now(store, mirror, next') == FanTurn(old(Now(store, mirror, next)), depth, Bare(sub), script, i)
    decreases script, 1
  {
    hide Steady, BareLog, FanDeeds;
    next' := next;
    Log(mirror.mux, Offered(depth, sub));
    if i < |script.reactions| && script.reactions[i].enters {
      Log(mirror.mux, Called(depth, sub));
      next' := Act(store, versions, mirror, next, depth + 1, script.reactions[i].deeds);
      if script.reactions[i].ending.Throws? {
        Log(mirror.mux, Failed(depth, sub));
      }
    }
  }

  method Log(mux: Mux, e: Event)
    modifies mux`log
    ensures BareLog(mux.log) == BareLog(old(mux.log)) + [BareEvent(e)]
  {
    BareLogged(mux.log, e);
    mux.log := mux.log + [e];
  }

  /** What a handler does, or the host over time: mutations and events in any order. */
  method Act(store: Channels, versions: Versions, mirror: Mirror, next: nat, depth: nat, deeds: Deeds) returns (next': nat)
    requires Steady(store, versions, mirror, next)
    modifies store, versions, store.owned, mirror, mirror.mux
    ensures Steady(store, versions, mirror, next') && fresh(store.owned - old(store.owned))
    ensures fresh(mirror.mux.arrays - old(mirror.mux.arrays)) && old(mirror.mux.arrays) <= mirror.mux.arrays
    ensures Now(store, mirror, next') == FanDeeds(old(Now(store, mirror, next)), depth, deeds, 0)
    decreases deeds, 0
  {
    hide Steady, BareLog, FanOut, Applied;
    next' := next;
    for j := 0 to |deeds.list|
      invariant Steady(store, versions, mirror, next') && fresh(store.owned - old(store.owned))
      invariant fresh(mirror.mux.arrays - old(mirror.mux.arrays)) && old(mirror.mux.arrays) <= mirror.mux.arrays
      invariant FanDeeds(Now(store, mirror, next'), depth, deeds, j) == FanDeeds(old(Now(store, mirror, next)), depth, deeds, 0)
    {
      var action := deeds.list[j];
      match action {
        case Mutate(op) => next' := Step(store, versions, mirror, next', op);
        case Raise(name, stopAt, script, deferred, plugins) =>
          var _, _, after := Cross(store, versions, mirror, next', depth, name, stopAt, script, deferred, plugins);
          next' := after;
      }
    }
  }

  /** From new objects on: any run of mutations and events, nested in any way, shows subscribers exactly what a fan-out from
      the flat list would show them, and leaves every array that is current showing the present snapshot. */
  method Run(kind: nat, payload: bool, deeds: Deeds) returns (store: Channels, mirror: Mirror, ghost next: nat)
    ensures store.Valid() && mirror.Valid() && mirror.CoherentWith(store.version, store.flat)
    ensures Now(store, mirror, next) == FanDeeds(Fanned([], 0, []), 0, deeds, 0)
  {
    hide FanDeeds;
    var versions := new Versions();
    var mux := new Mux();
    store := new Channels(versions);
    mirror := new Mirror(mux, kind, payload);
    assert BareLog([]) == [];
    var last := Act(store, versions, mirror, 0, 0, deeds);
    next := last;
  }

  lemma {:induction false} ShownBare(subs: seq<JsSub>, rows: seq<SourceRow>)
    requires Shows(subs, rows)
    ensures |subs| == |rows| && forall k | 0 <= k < |subs| :: Bare(subs[k]) == SubsOf(rows)[k]
  {
  }

  lemma {:induction false} FanWalkOn(s: Fanned, depth: nat, subs: seq<JsSub>, stopAt: StopAt, script: HostScript, i: nat, result: nat)
    requires i < |subs| && !Cut(stopAt, result)
    ensures FanWalk(s, depth, subs, stopAt, script, i, result)
            == FanWalk(FanTurn(s, depth, subs[i], script, i), depth, subs, stopAt, script, i + 1, Max(result, Gain(Plain(script), stopAt, i)))
  {
  }

  lemma {:induction false} FanWalkEnds(s: Fanned, depth: nat, subs: seq<JsSub>, stopAt: StopAt, script: HostScript, i: nat, result: nat)
    requires i >= |subs| || Cut(stopAt, result)
    ensures FanWalk(s, depth, subs, stopAt, script, i, result) == FanDone(s, result, Delivered)
  {
  }

  /** Two logs are compared event by event: the same thing happened at the same depth to the same subscriber, payload class apart. */
  lemma {:induction false} BareExactly(a: Event, b: Event)
    ensures BareEvent(a) == BareEvent(b) <==>
            && a.depth == b.depth && (a.Offered? <==> b.Offered?) && (a.Called? <==> b.Called?)
            && a.sub.owner == b.sub.owner && a.sub.handler == b.sub.handler && a.sub.id == b.sub.id && a.sub.monitor == b.sub.monitor
  {
  }
}
