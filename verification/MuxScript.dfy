/** What the JavaScript multiplexer does with one event: a walk over the subscriber array its channel had when
    the event arrived, for handlers that may themselves change channels and fire further events. */
module MuxScript {
  import opened JsValues
  import opened Options
  import opened Multiplexer

  /** A channel of one of the stores. */
  datatype Channel = Channel(kind: nat, name: Name)

  /** A subscriber record in the array of a channel. `ctor` is the payload class or context factory, if published. */
  datatype JsSub = JsSub(owner: Name, handler: Handler, ctor: Option<nat>, id: nat, monitor: bool)

  /** What a handler returns: `undefined`, a number, or anything else with what `ToNumber` makes of it, if it does not throw. */
  datatype Returned = ReturnsNothing | ReturnsNumber(number: Number) | ReturnsOther(coerced: Option<Number>)

  datatype Ending = Throws | Returns(value: Returned)

  /** How one subscriber behaves when its turn comes: whether `enter` lets it in, what it does re-entrantly, how it ends. */
  datatype Reaction = Reaction(enters: bool, actions: seq<Action>, ending: Ending)

  datatype Action =
    | SetRows(at: Channel, rows: seq<JsSub>)
    | DropRows(gone: set<Channel>)
    | Fire(at: Channel, stopAt: StopAt, script: Script)
    | FireFrame(at: Channel, script: Script)

  /** The reactions of the subscribers by position; positions past the end are not let in. */
  datatype Script = Script(reactions: seq<Reaction>)

  datatype StopAt = Never | AtStop | AtHandled

  datatype Event =
    | Offered(depth: nat, sub: JsSub)
    | Called(depth: nat, sub: JsSub)
    | Failed(depth: nat, sub: JsSub)

  datatype World = World(channels: map<Channel, seq<JsSub>>, log: seq<Event>)

  datatype Done = Done(world: World, result: nat)

  datatype FrameDone = FrameDone(world: World, chain: Chain)

  /** `ToUint32`, section 7.1.7 of ECMA-262: truncate towards zero, then reduce modulo 2^32. */
  function ToUint32(n: Number): (r: nat)
    ensures r < 0x1_0000_0000
  {
    match n
    case Finite(x) => (if x >= 0.0 then x.Floor else -(-x).Floor) % 0x1_0000_0000
    case _ => 0
  }

  /** A result code, or Continue for a number that is not one. */
  function ResultOf(n: Number): (r: nat)
    ensures r <= 3
  {
    if ToUint32(n) > 3 then 0 else ToUint32(n)
  }

  predicate Cut(stopAt: StopAt, result: nat) {
    match stopAt
    case Never => false
    case AtStop => result == 3
    case AtHandled => result >= 2
  }

  /** What a finished handler contributes to the collapsed result. */
  function Contribution(stopAt: StopAt, ending: Ending): nat {
    if stopAt != Never && ending.Returns? && ending.value.ReturnsNumber? then ResultOf(ending.value.number) else 0
  }

  function Max(a: nat, b: nat): nat {
    if b > a then b else a
  }

  function Logged(w: World, e: Event): World {
    w.(log := w.log + [e])
  }

  predicate Enters(script: Script, i: nat) {
    i < |script.reactions| && script.reactions[i].enters
  }

  /** What the subscriber at `i` adds to the collapsed result. */
  function Gain(script: Script, stopAt: StopAt, i: nat): nat {
    if Enters(script, i) then Contribution(stopAt, script.reactions[i].ending) else 0
  }

  // ---- one event ----

  /** The walk over the array the channel has when the event arrives. */
  ghost function RunDispatch(w: World, depth: nat, at: Channel, stopAt: StopAt, script: Script): Done
    decreases script, 3, 0
  {
    if at !in w.channels then Done(w, 0) else Walk(w, depth, w.channels[at], stopAt, script, 0, 0)
  }

  /** The walk from position `i` with `result` so far. */
  ghost function Walk(w: World, depth: nat, subs: seq<JsSub>, stopAt: StopAt, script: Script, i: nat, result: nat): Done
    decreases script, 2, |subs| - i
  {
    if i >= |subs| || Cut(stopAt, result) then Done(w, result)
    else Walk(TakeTurn(w, depth, subs[i], script, i), depth, subs, stopAt, script, i + 1, Max(result, Gain(script, stopAt, i)))
  }

  /** One subscriber is offered the event; if let in, it is called, acts, and may fail. */
  ghost function TakeTurn(w: World, depth: nat, sub: JsSub, script: Script, i: nat): World
    decreases script, 1, 0
  {
    var w0 := Logged(w, Offered(depth, sub));
    if !Enters(script, i) then w0 else
      var w1 := RunActions(Logged(w0, Called(depth, sub)), depth + 1, script.reactions[i], 0);
      if script.reactions[i].ending.Throws? then Logged(w1, Failed(depth, sub)) else w1
  }

  ghost function RunActions(w: World, depth: nat, reaction: Reaction, j: nat): World
    decreases reaction, 0, |reaction.actions| - j
  {
    if j >= |reaction.actions| then w else RunActions(RunAction(w, depth, reaction.actions[j]), depth, reaction, j + 1)
  }

  ghost function RunAction(w: World, depth: nat, action: Action): World
    decreases action, 4, 0
  {
    match action
    case SetRows(at, rows) => w.(channels := w.channels[at := rows])
    case DropRows(gone) => w.(channels := w.channels - gone)
    case Fire(at, stopAt, script) => RunDispatch(w, depth, at, stopAt, script).world
    case FireFrame(at, script) => RunFrame(w, depth, at, script).world
  }

  // ---- a game frame ----

  /** What a finished frame handler answers; a value that cannot be converted, or is not a result code, is Continue. */
  function FrameCode(value: Returned): (r: nat)
    ensures r <= 3
  {
    match value
    case ReturnsNothing => 0
    case ReturnsNumber(n) => ResultOf(n)
    case ReturnsOther(coerced) => if coerced.Some? then ResultOf(coerced.value) else 0
  }

  datatype Chain = Chain(result: nat, stopped: bool, errored: seq<nat>)

  /** A subscriber without a context factory is passed over, and after a stop every non-monitor. */
  predicate PassedOver(sub: JsSub, chain: Chain) {
    (chain.stopped && !sub.monitor) || sub.ctor.None?
  }

  function Link(sub: JsSub, script: Script, i: nat, chain: Chain): Chain {
    if PassedOver(sub, chain) || !Enters(script, i) then chain
    else match script.reactions[i].ending
      case Throws => chain.(errored := chain.errored + [sub.id])
      case Returns(value) =>
        if sub.monitor then chain
        else chain.(result := Max(chain.result, FrameCode(value)), stopped := chain.stopped || FrameCode(value) == 3)
  }

  ghost function RunFrame(w: World, depth: nat, at: Channel, script: Script): FrameDone
    decreases script, 3, 0
  {
    if at !in w.channels then FrameDone(w, Chain(0, false, []))
    else FrameWalk(w, depth, w.channels[at], script, 0, Chain(0, false, []))
  }

  ghost function FrameWalk(w: World, depth: nat, subs: seq<JsSub>, script: Script, i: nat, chain: Chain): FrameDone
    decreases script, 2, |subs| - i
  {
    if i >= |subs| then FrameDone(w, chain)
    else
      FrameWalk(if PassedOver(subs[i], chain) then w else TakeTurn(w, depth, subs[i], script, i),
                depth, subs, script, i + 1, Link(subs[i], script, i, chain))
  }

  // ---- laws ----

  /** Only a finite number whose integer part is 1, 2 or 3 modulo 2^32 is a result code. */
  lemma {:induction false} CodesAreExact(n: Number, code: nat)
    requires 1 <= code <= 3
    ensures ResultOf(n) == code <==> n.Finite? && exists p: int :: p % 0x1_0000_0000 == code && IntegerPart(n.value, p)
  {
    if n.Finite? {
      var x := n.value;
      var p := if x >= 0.0 then x.Floor else -(-x).Floor;
      assert IntegerPart(x, p);
      assert forall q | IntegerPart(x, q) :: q == p;
    }
  }

  /** `p` is `x` cut off towards zero. */
  ghost predicate IntegerPart(x: real, p: int) {
    if x >= 0.0 then p as real <= x < (p + 1) as real else (p - 1) as real < x <= p as real
  }

  /** The collapsed result of the first `n` subscribers, from their reactions alone. */
  ghost function Collapse(script: Script, stopAt: StopAt, n: nat): nat {
    if n == 0 then 0 else Max(Collapse(script, stopAt, n - 1), Gain(script, stopAt, n - 1))
  }

  /** How many of `n` subscribers are offered the event: up to the first point where the result cuts it off. */
  ghost function Reach(script: Script, stopAt: StopAt, n: nat, i: nat): (k: nat)
    requires i <= n
    ensures i <= k <= n
    ensures forall j | i <= j < k :: !Cut(stopAt, Collapse(script, stopAt, j))
    ensures k < n ==> Cut(stopAt, Collapse(script, stopAt, k))
    decreases n - i
  {
    if i == n || Cut(stopAt, Collapse(script, stopAt, i)) then i else Reach(script, stopAt, n, i + 1)
  }

  /** What the log says of one subscriber at its own depth. */
  ghost function Turn(depth: nat, sub: JsSub, script: Script, i: nat): seq<Event> {
    if !Enters(script, i) then [Offered(depth, sub)]
    else if script.reactions[i].ending.Throws? then [Offered(depth, sub), Called(depth, sub), Failed(depth, sub)]
    else [Offered(depth, sub), Called(depth, sub)]
  }

  ghost function Turns(depth: nat, subs: seq<JsSub>, script: Script, i: nat, k: nat): seq<Event>
    requires i <= k <= |subs|
    decreases k - i
  {
    if i == k then [] else Turn(depth, subs[i], script, i) + Turns(depth, subs, script, i + 1, k)
  }

  /** The events of a log at one depth. */
  ghost function AtDepth(log: seq<Event>, depth: nat): seq<Event> {
    if log == [] then [] else
      var before := AtDepth(log[..|log| - 1], depth);
      if log[|log| - 1].depth == depth then before + [log[|log| - 1]] else before
  }

  lemma {:induction false} AtDepthLogged(w: World, e: Event, depth: nat)
    ensures AtDepth(Logged(w, e).log, depth) == if e.depth == depth then AtDepth(w.log, depth) + [e] else AtDepth(w.log, depth)
  {
    assert (w.log + [e])[..|w.log|] == w.log;
  }

  /** Nothing a handler does re-entrantly is logged at or below the depth of its own event. */
  lemma {:induction false} TurnStaysAbove(w: World, depth: nat, sub: JsSub, script: Script, i: nat, d: nat)
    requires d <= depth
    ensures AtDepth(TakeTurn(w, depth, sub, script, i).log, d)
            == AtDepth(w.log, d) + if d == depth then Turn(depth, sub, script, i) else []
    decreases script, 1, 0
  {
    hide AtDepth, RunActions;
    var w0 := Logged(w, Offered(depth, sub));
    AtDepthLogged(w, Offered(depth, sub), d);
    if Enters(script, i) {
      var w1 := Logged(w0, Called(depth, sub));
      AtDepthLogged(w0, Called(depth, sub), d);
      ActionsStayAbove(w1, depth + 1, script.reactions[i], 0, d);
      AtDepthLogged(RunActions(w1, depth + 1, script.reactions[i], 0), Failed(depth, sub), d);
    }
  }

  lemma {:induction false} WalkStaysAbove(w: World, depth: nat, subs: seq<JsSub>, stopAt: StopAt, script: Script, i: nat, result: nat, d: nat)
    requires d < depth
    ensures AtDepth(Walk(w, depth, subs, stopAt, script, i, result).world.log, d) == AtDepth(w.log, d)
    decreases script, 2, |subs| - i
  {
    if i < |subs| && !Cut(stopAt, result) {
      TurnStaysAbove(w, depth, subs[i], script, i, d);
      WalkStaysAbove(TakeTurn(w, depth, subs[i], script, i), depth, subs, stopAt, script, i + 1, Max(result, Gain(script, stopAt, i)), d);
    }
  }

  lemma {:induction false} FrameStaysAbove(w: World, depth: nat, subs: seq<JsSub>, script: Script, i: nat, chain: Chain, d: nat)
    requires d < depth
    ensures AtDepth(FrameWalk(w, depth, subs, script, i, chain).world.log, d) == AtDepth(w.log, d)
    decreases script, 2, |subs| - i
  {
    if i < |subs| {
      TurnStaysAbove(w, depth, subs[i], script, i, d);
      var next := if PassedOver(subs[i], chain) then w else TakeTurn(w, depth, subs[i], script, i);
      FrameStaysAbove(next, depth, subs, script, i + 1, Link(subs[i], script, i, chain), d);
    }
  }

  lemma {:induction false} ActionsStayAbove(w: World, depth: nat, reaction: Reaction, j: nat, d: nat)
    requires d < depth
    ensures AtDepth(RunActions(w, depth, reaction, j).log, d) == AtDepth(w.log, d)
    decreases reaction, 0, |reaction.actions| - j
  {
    if j < |reaction.actions| {
      ActionStaysAbove(w, depth, reaction.actions[j], d);
      ActionsStayAbove(RunAction(w, depth, reaction.actions[j]), depth, reaction, j + 1, d);
    }
  }

  lemma {:induction false} ActionStaysAbove(w: World, depth: nat, action: Action, d: nat)
    requires d < depth
    ensures AtDepth(RunAction(w, depth, action).log, d) == AtDepth(w.log, d)
    decreases action, 4, 0
  {
    match action
    case Fire(at, stopAt, script) =>
      if at in w.channels {
        WalkStaysAbove(w, depth, w.channels[at], stopAt, script, 0, 0, d);
      }
    case FireFrame(at, script) =>
      if at in w.channels {
        FrameStaysAbove(w, depth, w.channels[at], script, 0, Chain(0, false, []), d);
      }
    case _ =>
  }

  lemma {:induction false} WalkIsFold(w: World, depth: nat, subs: seq<JsSub>, stopAt: StopAt, script: Script, i: nat)
    requires i <= |subs|
    ensures var k := Reach(script, stopAt, |subs|, i);
            var done := Walk(w, depth, subs, stopAt, script, i, Collapse(script, stopAt, i));
            && done.result == Collapse(script, stopAt, k)
            && AtDepth(done.world.log, depth) == AtDepth(w.log, depth) + Turns(depth, subs, script, i, k)
    decreases |subs| - i
  {
    hide TakeTurn, Turn, AtDepth, Gain, Cut;
    if i != |subs| && !Cut(stopAt, Collapse(script, stopAt, i)) {
      TurnStaysAbove(w, depth, subs[i], script, i, depth);
      WalkIsFold(TakeTurn(w, depth, subs[i], script, i), depth, subs, stopAt, script, i + 1);
    }
  }

  /** One event depends on the array its channel had when it arrived and on its subscribers' own reactions only:
      nothing a handler does to any channel changes the result, who is offered the event, or in what order. */
  lemma {:induction false} DispatchIsFold(w: World, depth: nat, at: Channel, stopAt: StopAt, script: Script)
    requires at in w.channels
    ensures var subs := w.channels[at];
            var k := Reach(script, stopAt, |subs|, 0);
            var done := RunDispatch(w, depth, at, stopAt, script);
            && done.result == Collapse(script, stopAt, k)
            && AtDepth(done.world.log, depth) == AtDepth(w.log, depth) + Turns(depth, subs, script, 0, k)
  {
    WalkIsFold(w, depth, w.channels[at], stopAt, script, 0);
  }

  /** The result is the largest normalised return of a subscriber that was let in and did not throw. */
  lemma {:induction false} CollapseIsMaximum(script: Script, stopAt: StopAt, n: nat)
    ensures var r := Collapse(script, stopAt, n);
            && r <= 3
            && (forall i: nat | i < n :: Gain(script, stopAt, i) <= r)
            && (r == 0 || exists i: nat :: i < n && Gain(script, stopAt, i) == r)
  {
    if n != 0 {
      CollapseIsMaximum(script, stopAt, n - 1);
      var r, before := Collapse(script, stopAt, n), Collapse(script, stopAt, n - 1);
      if r == before && r != 0 {
        var i: nat :| i < n - 1 && Gain(script, stopAt, i) == r;
      } else {
        assert r == 0 || Gain(script, stopAt, n - 1) == r;
      }
    }
  }

  /** Who is offered the event, by the codes of those before: with nothing to stop at everyone, else the subscribers up to and
      including the first whose code is Stop, or Handled or more. */
  lemma {:induction false} ReachExactly(script: Script, stopAt: StopAt, n: nat, i: nat)
    requires i < n
    ensures i < Reach(script, stopAt, n, 0) <==>
            match stopAt
            case Never => true
            case AtStop => forall j: nat | j < i :: Gain(script, stopAt, j) != 3
            case AtHandled => forall j: nat | j < i :: Gain(script, stopAt, j) != 2 && Gain(script, stopAt, j) != 3
  {
    hide Gain, Collapse;
    var k := Reach(script, stopAt, n, 0);
    CollapseIsMaximum(script, stopAt, i);
    CollapseIsMaximum(script, stopAt, k);
  }

  /** A subscriber contributes the code of the number it returned if it was let in and results count, and nothing otherwise. */
  lemma {:induction false} GainExactly(script: Script, stopAt: StopAt, i: nat, code: nat)
    requires 1 <= code <= 3
    ensures Gain(script, stopAt, i) <= 3
    ensures Gain(script, stopAt, i) == code <==>
            && stopAt != Never && i < |script.reactions| && script.reactions[i].enters
            && var ending := script.reactions[i].ending;
               ending.Returns? && ending.value.ReturnsNumber? && ending.value.number.Finite?
               && exists p: int :: p % 0x1_0000_0000 == code && IntegerPart(ending.value.number.value, p)
  {
    hide IntegerPart, ResultOf;
    if Enters(script, i) && script.reactions[i].ending.Returns? && script.reactions[i].ending.value.ReturnsNumber? {
      CodesAreExact(script.reactions[i].ending.value.number, code);
    }
  }

  /** What a frame handler answers: the code of its number, or of what its value converts to. */
  lemma {:induction false} FrameCodeExactly(value: Returned, code: nat)
    requires 1 <= code <= 3
    ensures FrameCode(value) == code <==>
            var n := match value
                     case ReturnsNothing => None
                     case ReturnsNumber(number) => Some(number)
                     case ReturnsOther(coerced) => coerced;
            n.Some? && n.value.Finite? && exists p: int :: p % 0x1_0000_0000 == code && IntegerPart(n.value.value, p)
  {
    hide IntegerPart, ResultOf;
    if value.ReturnsNumber? {
      CodesAreExact(value.number, code);
    } else if value.ReturnsOther? && value.coerced.Some? {
      CodesAreExact(value.coerced.value, code);
    }
  }

  /** A subscriber that is offered the event is called exactly if it is let in, and reported exactly if it then throws. */
  lemma {:induction false} TurnExactly(depth: nat, sub: JsSub, script: Script, i: nat)
    ensures var turn, entered := Turn(depth, sub, script, i), i < |script.reactions| && script.reactions[i].enters;
            && turn[..1] == [Offered(depth, sub)]
            && (Called(depth, sub) in turn <==> entered)
            && (Failed(depth, sub) in turn <==> entered && script.reactions[i].ending == Throws)
  {
  }

  /** Without an array there is nobody to reach. */
  lemma {:induction false} AbsentReachesNobody(w: World, depth: nat, at: Channel, stopAt: StopAt, script: Script)
    requires at !in w.channels
    ensures RunDispatch(w, depth, at, stopAt, script) == Done(w, 0)
    ensures RunFrame(w, depth, at, script) == FrameDone(w, Chain(0, false, []))
  {
  }

  /** What a handler does takes effect at once: an event it fires next goes to the array it has just put in place. */
  lemma {:induction false} SetThenFire(w: World, depth: nat, reaction: Reaction, at: Channel, rows: seq<JsSub>, stopAt: StopAt, script: Script)
    requires reaction.actions == [SetRows(at, rows), Fire(at, stopAt, script)]
    ensures RunActions(w, depth, reaction, 0) == RunDispatch(w.(channels := w.channels[at := rows]), depth, at, stopAt, script).world
  {
    hide RunDispatch;
    var first := RunAction(w, depth, reaction.actions[0]);
    var second := RunAction(first, depth, reaction.actions[1]);
    assert RunActions(second, depth, reaction, 2) == second;
    assert RunActions(first, depth, reaction, 1) == second;
  }

  // ---- a frame is the chain ----

  function HookResultOf(code: nat): HookResult {
    match code
    case 1 => Changed
    case 2 => Handled
    case 3 => Stop
    case _ => Continue
  }

  /** A subscriber as `run_chain` sees it. */
  ghost function AsListed(sub: JsSub): Listed {
    Listed(sub.id, if sub.monitor then Monitor else Normal, sub.owner, sub.handler)
  }

  /** What invoking it answers there: one without a context, or not live, is Continue. */
  ghost function AsReply(sub: JsSub, script: Script, i: nat): Reply {
    if sub.ctor.None? || !Enters(script, i) then Ok(Continue)
    else match script.reactions[i].ending
      case Throws => Err
      case Returns(value) => Ok(HookResultOf(FrameCode(value)))
  }

  ghost function AsChain(subs: seq<JsSub>): (r: seq<Listed>)
    ensures |r| == |subs| && forall i | 0 <= i < |subs| :: r[i] == AsListed(subs[i])
  {
    seq(|subs|, i requires 0 <= i < |subs| => AsListed(subs[i]))
  }

  ghost function AsReplies(subs: seq<JsSub>, script: Script): (r: seq<Reply>)
    ensures |r| == |subs| && forall i | 0 <= i < |subs| :: r[i] == AsReply(subs[i], script, i)
  {
    seq(|subs|, i requires 0 <= i < |subs| => AsReply(subs[i], script, i))
  }

  lemma {:induction false} ChainStep(subs: seq<JsSub>, script: Script, i: nat)
    requires i < |subs|
    ensures var snapshot, replies := AsChain(subs), AsReplies(subs, script);
            var called := snapshot[i].priority == Monitor || !Stopped(snapshot, replies, i);
            var before := Collapsed(snapshot, replies, i);
            && Collapsed(snapshot, replies, i + 1) ==
                 (if snapshot[i].priority != Monitor && called && replies[i].Ok? then More(before, replies[i].result) else before)
            && Failures(snapshot, replies, i + 1) ==
                 Failures(snapshot, replies, i) + if called && replies[i].Err? then [snapshot[i].id] else []
  {
    hide Stopped;
  }

  /** The JavaScript frame loop computes the chain of the native multiplexer on the captured array. */
  lemma {:induction false} FrameIsChain(w: World, depth: nat, subs: seq<JsSub>, script: Script, i: nat, chain: Chain)
    requires i <= |subs|
    requires chain.result == Severity(Collapsed(AsChain(subs), AsReplies(subs, script), i))
    requires chain.stopped <==> Stopped(AsChain(subs), AsReplies(subs, script), i)
    requires chain.errored == Failures(AsChain(subs), AsReplies(subs, script), i)
    ensures var final := FrameWalk(w, depth, subs, script, i, chain).chain;
            && HookResultOf(final.result) == Collapsed(AsChain(subs), AsReplies(subs, script), |subs|)
            && final.errored == Failures(AsChain(subs), AsReplies(subs, script), |subs|)
    decreases |subs| - i
  {
    hide TakeTurn, Stopped, Collapsed, Failures, FrameCode;
    if i < |subs| {
      ChainStep(subs, script, i);
      StoppedStep(AsChain(subs), AsReplies(subs, script), i);
      var next := if PassedOver(subs[i], chain) then w else TakeTurn(w, depth, subs[i], script, i);
      FrameIsChain(next, depth, subs, script, i + 1, Link(subs[i], script, i, chain));
    }
  }

  /** A frame on a channel is the native chain on the array the channel had when the frame began. */
  lemma {:induction false} FrameRunsChain(w: World, depth: nat, at: Channel, script: Script)
    requires at in w.channels
    ensures var subs, chain := w.channels[at], RunFrame(w, depth, at, script).chain;
            && HookResultOf(chain.result) == Collapsed(AsChain(subs), AsReplies(subs, script), |subs|)
            && chain.errored == Failures(AsChain(subs), AsReplies(subs, script), |subs|)
  {
    FrameIsChain(w, depth, w.channels[at], script, 0, Chain(0, false, []));
  }
}
