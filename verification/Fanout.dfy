/** What events mean without a multiplexer: each is fanned out to the snapshot its channel has when it arrives, for handlers
    that may themselves change the store and fire further events. */
module Fanout {
  import opened JsValues
  import opened Options
  import opened Multiplexer
  import opened ChannelSpec
  import opened MuxScript
  import opened MuxMirror

  datatype StoreOp =
    | Subscribe(name: Name, owner: Name, handler: Handler)
    | RemoveByOwner(owner: Name)
    | RemoveByIds(gone: seq<nat>)
    | RemoveByOwnerOn(name: Name, owner: Name)
    | RemoveByName(name: Name)
    | Rename(from: Name, to: Name)

  /** The flat list after one step; `next` is the subscription id the host would hand out. */
  ghost function Applied(s: seq<Sub>, next: nat, op: StoreOp): seq<Sub> {
    match op
    case Subscribe(name, owner, handler) => s + [Sub(name, next, owner, handler)]
    case RemoveByOwner(owner) => Without(s, OwnedBy(owner))
    case RemoveByIds(gone) => Without(s, WithAnyId(gone))
    case RemoveByOwnerOn(name, owner) => Without(s, OwnedOn(name, owner))
    case RemoveByName(name) => Without(s, OnChannel(name))
    case Rename(from, to) => Renamed(s, from, to)
  }

  function NextId(next: nat, op: StoreOp): nat {
    if op.Subscribe? then next + 1 else next
  }

  ghost predicate Below(s: seq<Sub>, next: nat) {
    forall i | 0 <= i < |s| :: s[i].id < next
  }

  lemma {:induction false} KeptBelow(s: seq<Sub>, t: Test, want: bool, next: nat)
    requires Below(s, next)
    ensures Below(Keep(s, t, want), next)
  {
    forall k | 0 <= k < |Keep(s, t, want)| ensures Keep(s, t, want)[k].id < next {
      var i := KeptFrom(s, t, want, k);
    }
  }

  /** The counter stays ahead of every live id. */
  lemma {:induction false} AppliedBelow(s: seq<Sub>, next: nat, op: StoreOp)
    requires Below(s, next)
    ensures Below(Applied(s, next, op), NextId(next, op))
  {
    match op
    case RemoveByOwner(owner) => KeptBelow(s, OwnedBy(owner), false, next);
    case RemoveByIds(gone) => KeptBelow(s, WithAnyId(gone), false, next);
    case RemoveByOwnerOn(name, owner) => KeptBelow(s, OwnedOn(name, owner), false, next);
    case RemoveByName(name) => KeptBelow(s, OnChannel(name), false, next);
    case Rename(from, to) =>
      KeptBelow(s, OnChannel(from), false, next);
      KeptBelow(s, OnChannel(from), true, next);
    case _ =>
  }

  // ---- handlers of the host ----

  /** The payload classes that plugins have published, and which generations are live. */
  datatype Plugins = Plugins(ctorOf: Name -> Option<nat>, isLive: (Name, nat) -> bool)

  /** What a handler can do: change the store, or bring about another event, for which the host may be busy. */
  datatype HostAction =
    | Mutate(op: StoreOp)
    | Raise(name: Name, stopAt: StopAt, script: HostScript, deferred: bool, plugins: Plugins)

  datatype Deeds = Deeds(list: seq<HostAction>)

  datatype HostReaction = HostReaction(enters: bool, deeds: Deeds, ending: Ending)

  datatype HostScript = HostScript(reactions: seq<HostReaction>)

  /** The reactions with what they do left out. */
  function Plain(script: HostScript): (r: Script)
    ensures |r.reactions| == |script.reactions|
    ensures forall i | 0 <= i < |script.reactions| ::
              r.reactions[i] == Reaction(script.reactions[i].enters, [], script.reactions[i].ending)
  {
    Script(seq(|script.reactions|, i requires 0 <= i < |script.reactions| =>
      Reaction(script.reactions[i].enters, [], script.reactions[i].ending)))
  }

  // ---- the fan-out ----

  /** The store's list, the next subscription id, and the log of what subscribers were offered. */
  datatype Fanned = Fanned(flat: seq<Sub>, next: nat, log: seq<Event>)

  datatype FanDone = FanDone(state: Fanned, result: nat, delivery: Delivery)

  ghost function SubsOf(rows: seq<SourceRow>): (r: seq<JsSub>)
    ensures |r| == |rows|
    ensures forall k | 0 <= k < |rows| :: r[k] == AsSub(rows[k])
  {
    seq(|rows|, k requires 0 <= k < |rows| => AsSub(rows[k]))
  }

  ghost function Noted(s: Fanned, e: Event): Fanned {
    s.(log := s.log + [e])
  }

  ghost function FanOut(s: Fanned, depth: nat, name: Name, stopAt: StopAt, script: HostScript, deferred: bool): FanDone
    decreases script, 3, 0
  {
    var subs := SubsOf(Present(s.flat, name));
    if subs == [] then FanDone(s, 0, Delivered)
    else if deferred then FanDone(s, 0, Deferred)
    else FanWalk(s, depth, subs, stopAt, script, 0, 0)
  }

  ghost function FanWalk(s: Fanned, depth: nat, subs: seq<JsSub>, stopAt: StopAt, script: HostScript, i: nat, result: nat): FanDone
    decreases script, 2, |subs| - i
  {
    if i >= |subs| || Cut(stopAt, result) then FanDone(s, result, Delivered)
    else FanWalk(FanTurn(s, depth, subs[i], script, i), depth, subs, stopAt, script, i + 1, Max(result, Gain(Plain(script), stopAt, i)))
  }

  ghost function FanTurn(s: Fanned, depth: nat, sub: JsSub, script: HostScript, i: nat): Fanned
    decreases script, 1, 0
  {
    var s0 := Noted(s, Offered(depth, sub));
    if !Enters(Plain(script), i) then s0 else
      var s1 := FanDeeds(Noted(s0, Called(depth, sub)), depth + 1, script.reactions[i].deeds, 0);
      if script.reactions[i].ending.Throws? then Noted(s1, Failed(depth, sub)) else s1
  }

  ghost function FanDeeds(s: Fanned, depth: nat, deeds: Deeds, j: nat): Fanned
    decreases deeds, 0, |deeds.list| - j
  {
    if j >= |deeds.list| then s else FanDeeds(FanDeed(s, depth, deeds.list[j]), depth, deeds, j + 1)
  }

  ghost function FanDeed(s: Fanned, depth: nat, action: HostAction): Fanned
    decreases action, 4, 0
  {
    match action
    case Mutate(op) => s.(flat := Applied(s.flat, s.next, op), next := NextId(s.next, op))
    case Raise(name, stopAt, script, deferred, _) => FanOut(s, depth, name, stopAt, script, deferred).state
  }

  // ---- laws ----

  lemma {:induction false} NotedAtDepth(s: Fanned, e: Event, depth: nat)
    ensures AtDepth(Noted(s, e).log, depth) == if e.depth == depth then AtDepth(s.log, depth) + [e] else AtDepth(s.log, depth)
  {
    assert (s.log + [e])[..|s.log|] == s.log;
  }

  /** Nothing a handler brings about is logged at or below the depth of its own event. */
  lemma {:induction false} FanTurnStaysAbove(s: Fanned, depth: nat, sub: JsSub, script: HostScript, i: nat, d: nat)
    requires d <= depth
    ensures AtDepth(FanTurn(s, depth, sub, script, i).log, d)
            == AtDepth(s.log, d) + if d == depth then Turn(depth, sub, Plain(script), i) else []
    decreases script, 1, 0
  {
    hide AtDepth;
    var s0 := Noted(s, Offered(depth, sub));
    NotedAtDepth(s, Offered(depth, sub), d);
    if Enters(Plain(script), i) {
      var s1 := Noted(s0, Called(depth, sub));
      NotedAtDepth(s0, Called(depth, sub), d);
      FanDeedsStayAbove(s1, depth + 1, script.reactions[i].deeds, 0, d);
      NotedAtDepth(FanDeeds(s1, depth + 1, script.reactions[i].deeds, 0), Failed(depth, sub), d);
    }
  }

  lemma {:induction false} FanWalkStaysAbove(s: Fanned, depth: nat, subs: seq<JsSub>, stopAt: StopAt, script: HostScript, i: nat, result: nat, d: nat)
    requires d < depth
    ensures AtDepth(FanWalk(s, depth, subs, stopAt, script, i, result).state.log, d) == AtDepth(s.log, d)
    decreases script, 2, |subs| - i
  {
    hide AtDepth;
    if i < |subs| && !Cut(stopAt, result) {
      FanTurnStaysAbove(s, depth, subs[i], script, i, d);
      FanWalkStaysAbove(FanTurn(s, depth, subs[i], script, i), depth, subs, stopAt, script, i + 1, Max(result, Gain(Plain(script), stopAt, i)), d);
    }
  }

  lemma {:induction false} FanDeedsStayAbove(s: Fanned, depth: nat, deeds: Deeds, j: nat, d: nat)
    requires d < depth
    ensures AtDepth(FanDeeds(s, depth, deeds, j).log, d) == AtDepth(s.log, d)
    decreases deeds, 0, |deeds.list| - j
  {
    hide AtDepth;
    if j < |deeds.list| {
      FanDeedStaysAbove(s, depth, deeds.list[j], d);
      FanDeedsStayAbove(FanDeed(s, depth, deeds.list[j]), depth, deeds, j + 1, d);
    }
  }

  lemma {:induction false} FanDeedStaysAbove(s: Fanned, depth: nat, action: HostAction, d: nat)
    requires d < depth
    ensures AtDepth(FanDeed(s, depth, action).log, d) == AtDepth(s.log, d)
    decreases action, 4, 0
  {
    hide AtDepth;
    if action.Raise? {
      var subs := SubsOf(Present(s.flat, action.name));
      if subs != [] && !action.deferred {
        FanWalkStaysAbove(s, depth, subs, action.stopAt, action.script, 0, 0, d);
      }
    }
  }

  lemma {:induction false} FanWalkIsFold(s: Fanned, depth: nat, subs: seq<JsSub>, stopAt: StopAt, script: HostScript, i: nat)
    requires i <= |subs|
    ensures var k := Reach(Plain(script), stopAt, |subs|, i);
            var done := FanWalk(s, depth, subs, stopAt, script, i, Collapse(Plain(script), stopAt, i));
            && done.result == Collapse(Plain(script), stopAt, k) && done.delivery == Delivered
            && AtDepth(done.state.log, depth) == AtDepth(s.log, depth) + Turns(depth, subs, Plain(script), i, k)
    decreases |subs| - i
  {
    hide FanTurn, Turn, AtDepth, Gain, Cut;
    if i != |subs| && !Cut(stopAt, Collapse(Plain(script), stopAt, i)) {
      FanTurnStaysAbove(s, depth, subs[i], script, i, depth);
      FanWalkIsFold(FanTurn(s, depth, subs[i], script, i), depth, subs, stopAt, script, i + 1);
    }
  }

  /** Whatever its handlers do to the store, and whatever events they raise, an event goes to the snapshot at its start, in
      order, up to the first point where the collapsed result cuts it off. */
  lemma {:induction false} FanOutIsFold(s: Fanned, depth: nat, name: Name, stopAt: StopAt, script: HostScript)
    requires Present(s.flat, name) != []
    ensures var subs := SubsOf(Present(s.flat, name));
            var k := Reach(Plain(script), stopAt, |subs|, 0);
            var done := FanOut(s, depth, name, stopAt, script, false);
            && done.result == Collapse(Plain(script), stopAt, k) && done.delivery == Delivered
            && AtDepth(done.state.log, depth) == AtDepth(s.log, depth) + Turns(depth, subs, Plain(script), 0, k)
  {
    FanWalkIsFold(s, depth, SubsOf(Present(s.flat, name)), stopAt, script, 0);
  }

  /** Nobody to reach is delivered at once; a busy host puts the event off and touches nothing. */
  lemma {:induction false} FanOutDeferred(s: Fanned, depth: nat, name: Name, stopAt: StopAt, script: HostScript, deferred: bool)
    ensures var done := FanOut(s, depth, name, stopAt, script, deferred);
            && (done.delivery == Deferred <==> deferred && On(s.flat, name) != [])
            && (deferred || On(s.flat, name) == [] ==> done.state == s && done.result == 0)
  {
    hide FanWalk, On;
    if On(s.flat, name) != [] && !deferred {
      FanOutIsFold(s, depth, name, stopAt, script);
    }
  }

  /** Which subscriptions an operation leaves: those it does not name, and a new one only from a subscription; what a rename moves
      keeps id, owner and handler. */
  lemma {:induction false} AppliedExactly(s: seq<Sub>, next: nat, op: StoreOp, e: Sub)
    ensures e in Applied(s, next, op) <==>
            match op
            case Subscribe(name, owner, handler) => e in s || e == Sub(name, next, owner, handler)
            case RemoveByOwner(owner) => e in s && e.owner != owner
            case RemoveByIds(gone) => e in s && e.id !in gone
            case RemoveByOwnerOn(name, owner) => e in s && !(e.owner == owner && e.channel == name)
            case RemoveByName(name) => e in s && e.channel != name
            case Rename(from, to) => (e in s && (e.channel != from || from == to)) || (e.channel == to && e.(channel := from) in s)
  {
    hide Keep;
    match op
    case RemoveByOwner(owner) => KeptMember(s, OwnedBy(owner), false, e);
    case RemoveByIds(gone) => KeptMember(s, WithAnyId(gone), false, e);
    case RemoveByOwnerOn(name, owner) => KeptMember(s, OwnedOn(name, owner), false, e);
    case RemoveByName(name) => KeptMember(s, OnChannel(name), false, e);
    case Rename(from, to) =>
      KeptMember(s, OnChannel(from), false, e);
      KeptMember(s, OnChannel(from), true, e.(channel := from));
      forall k | 0 <= k < |On(s, from)| ensures On(s, from)[k].channel == from {
        var i := KeptFrom(s, OnChannel(from), true, k);
      }
      MovedMember(On(s, from), from, to, e);
    case _ =>
  }

  lemma {:induction false} KeptMember(s: seq<Sub>, t: Test, want: bool, e: Sub)
    ensures e in Keep(s, t, want) <==> e in s && Meets(t, e) == want
  {
    if s != [] {
      KeptMember(s[1..], t, want, e);
    }
  }

  lemma {:induction false} MovedMember(s: seq<Sub>, from: Name, to: Name, e: Sub)
    requires forall i | 0 <= i < |s| :: s[i].channel == from
    ensures e in Moved(s, to) <==> e.channel == to && e.(channel := from) in s
  {
    if e.channel == to && e.(channel := from) in s {
      var i :| 0 <= i < |s| && s[i] == e.(channel := from);
      assert Moved(s, to)[i] == e;
    }
  }

  /** What a handler does takes effect at once: an event it brings about next goes to the store as it has just changed it. */
  lemma {:induction false} MutateThenRaise(s: Fanned, depth: nat, deeds: Deeds, op: StoreOp, name: Name, stopAt: StopAt, script: HostScript,
                                           deferred: bool, plugins: Plugins)
    requires deeds.list == [Mutate(op), Raise(name, stopAt, script, deferred, plugins)]
    ensures FanDeeds(s, depth, deeds, 0)
            == FanOut(s.(flat := Applied(s.flat, s.next, op), next := s.next + if op.Subscribe? then 1 else 0), depth, name, stopAt, script, deferred).state
  {
    hide FanOut, Applied;
    var first := FanDeed(s, depth, deeds.list[0]);
    var second := FanDeed(first, depth, deeds.list[1]);
    assert FanDeeds(second, depth, deeds, 2) == second;
    assert FanDeeds(first, depth, deeds, 1) == second;
  }
}
