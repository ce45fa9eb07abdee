/** The JavaScript multiplexer's mutable state: one subscriber array per channel, replaced and never written. */
module MuxRealm {
  import opened JsValues
  import opened Options
  import opened Multiplexer
  import opened MuxScript

  class Mux {
    var kinds: map<Channel, array<JsSub>>
    /** What the arrays hold. */
    ghost var seen: map<Channel, seq<JsSub>>
    ghost var log: seq<Event>
    ghost var arrays: set<array<JsSub>>

    ghost predicate Valid()
      reads this`kinds, this`seen, this`arrays, arrays
    {
      forall at :: (at in kinds <==> at in seen) && (at in kinds ==> kinds[at] in arrays && kinds[at][..] == seen[at])
    }

    ghost function State(): World
      reads this`seen, this`log
    {
      World(seen, log)
    }

    constructor ()
      ensures Valid() && State() == World(map[], []) && arrays == {}
    {
      kinds, seen, log, arrays := map[], map[], [], {};
    }

    method Set(at: Channel, rows: seq<JsSub>)
      requires Valid()
      modifies this`kinds, this`seen, this`arrays
      ensures Valid() && fresh(arrays - old(arrays)) && old(arrays) <= arrays
      ensures seen == old(seen)[at := rows]
    {
      var subs := new JsSub[|rows|](i requires 0 <= i < |rows| => rows[i]);
      kinds := kinds[at := subs];
      seen := seen[at := rows];
      arrays := arrays + {subs};
      assert subs[..] == rows;
    }

    method Drop(gone: set<Channel>)
      requires Valid()
      modifies this`kinds, this`seen
      ensures Valid() && seen == old(seen) - gone
    {
      kinds := kinds - gone;
      seen := seen - gone;
    }

    /** The walk goes over the array captured on entry, which no handler can reach. */
    method Dispatch(depth: nat, at: Channel, stopAt: StopAt, script: Script) returns (result: nat)
      requires Valid()
      modifies this
      ensures Valid() && fresh(arrays - old(arrays)) && old(arrays) <= arrays
      ensures Done(State(), result) == RunDispatch(old(State()), depth, at, stopAt, script)
      decreases script, 3
    {
      hide Valid, ToUint32, RunActions, Cut;
      StateOf(at);
      if at !in kinds {
        return 0;
      }
      var subs := kinds[at];
      ghost var captured := seen[at];
      result := 0;
      var i := 0;
      while i < subs.Length && !Cut(stopAt, result)
        invariant i <= subs.Length && subs[..] == captured
        invariant Valid() && fresh(arrays - old(arrays)) && old(arrays) <= arrays
        invariant Walk(State(), depth, captured, stopAt, script, i, result) == RunDispatch(old(State()), depth, at, stopAt, script)
      {
        var s := subs[i];
        assert s == captured[i];
        WalkOn(State(), depth, captured, stopAt, script, i, result);
        log := log + [Offered(depth, s)];
        if Enters(script, i) {
          var reaction := script.reactions[i];
          log := log + [Called(depth, s)];
          Act(depth + 1, reaction);
          match reaction.ending {
            case Throws => log := log + [Failed(depth, s)];
            case Returns(_) => result := Collect(stopAt, reaction.ending, result);
          }
        }
        i := i + 1;
      }
      WalkEnds(State(), depth, captured, stopAt, script, i, result);
    }

    lemma {:induction false} StateOf(at: Channel)
      requires Valid()
      ensures at in kinds <==> at in seen
      ensures at in kinds ==> kinds[at] in arrays && kinds[at][..] == seen[at]
    {
    }

    /** What a handler does to the multiplexer while it runs. */
    method Act(depth: nat, reaction: Reaction)
      requires Valid()
      modifies this
      ensures Valid() && fresh(arrays - old(arrays)) && old(arrays) <= arrays
      ensures State() == RunActions(old(State()), depth, reaction, 0)
      decreases reaction, 0
    {
      hide Valid, RunDispatch, RunFrame;
      for j := 0 to |reaction.actions|
        invariant Valid() && fresh(arrays - old(arrays)) && old(arrays) <= arrays
        invariant RunActions(State(), depth, reaction, j) == RunActions(old(State()), depth, reaction, 0)
      {
        var action := reaction.actions[j];
        match action {
          case SetRows(at, rows) => Set(at, rows);
          case DropRows(gone) => Drop(gone);
          case Fire(at, stopAt, script) => var _ := Dispatch(depth, at, stopAt, script);
          case FireFrame(at, script) => var _ := DispatchFrame(depth, at, script);
        }
      }
    }

    /** The frame chain over the captured array: the collapsed result and the handlers that threw. */
    method DispatchFrame(depth: nat, at: Channel, script: Script) returns (chain: Chain)
      requires Valid()
      modifies this
      ensures Valid() && fresh(arrays - old(arrays)) && old(arrays) <= arrays
      ensures FrameDone(State(), chain) == RunFrame(old(State()), depth, at, script)
      decreases script, 3
    {
      hide Valid, ToUint32, RunActions;
      StateOf(at);
      var result, stopped := 0, false;
      var errored: seq<nat> := [];
      if at !in kinds {
        return Chain(result, stopped, errored);
      }
      var subs := kinds[at];
      ghost var captured := seen[at];
      for i := 0 to subs.Length
        invariant subs[..] == captured
        invariant Valid() && fresh(arrays - old(arrays)) && old(arrays) <= arrays
        invariant FrameWalk(State(), depth, captured, script, i, Chain(result, stopped, errored)) == RunFrame(old(State()), depth, at, script)
      {
        var s := subs[i];
        assert s == captured[i];
        FrameOn(State(), depth, captured, script, i, Chain(result, stopped, errored));
        if stopped && !s.monitor {
          continue;
        }
        if s.ctor.None? {
          continue;
        }
        log := log + [Offered(depth, s)];
        if !Enters(script, i) {
          continue;
        }
        var reaction := script.reactions[i];
        log := log + [Called(depth, s)];
        Act(depth + 1, reaction);
        if reaction.ending.Throws? {
          log := log + [Failed(depth, s)];
          errored := errored + [s.id];
          continue;
        }
        var r := 0;
        if reaction.ending.value.ReturnsNumber? {
          r := ToUint32(reaction.ending.value.number);
        } else if reaction.ending.value.ReturnsOther? && reaction.ending.value.coerced.Some? {
          r := ToUint32(reaction.ending.value.coerced.value);
        }
        if r > 3 {
          r := 0;
        }
        if s.monitor {
          continue;
        }
        if r > result {
          result := r;
        }
        if r == 3 {
          stopped := true;
        }
      }
      chain := Chain(result, stopped, errored);
    }
  }

  /** The result once a handler has ended. */
  method Collect(stopAt: StopAt, ending: Ending, before: nat) returns (result: nat)
    ensures result == Max(before, Contribution(stopAt, ending))
  {
    result := before;
    if stopAt != Never && ending.Returns? && ending.value.ReturnsNumber? {
      var r := ToUint32(ending.value.number);
      if r > 3 {
        r := 0;
      }
      if r > result {
        result := r;
      }
    }
  }

  lemma {:induction false} WalkOn(w: World, depth: nat, subs: seq<JsSub>, stopAt: StopAt, script: Script, i: nat, result: nat)
    requires i < |subs| && !Cut(stopAt, result)
    ensures Walk(w, depth, subs, stopAt, script, i, result)
            == Walk(TakeTurn(w, depth, subs[i], script, i), depth, subs, stopAt, script, i + 1, Max(result, Gain(script, stopAt, i)))
  {
  }

  lemma {:induction false} WalkEnds(w: World, depth: nat, subs: seq<JsSub>, stopAt: StopAt, script: Script, i: nat, result: nat)
    requires i >= |subs| || Cut(stopAt, result)
    ensures Walk(w, depth, subs, stopAt, script, i, result) == Done(w, result)
  {
  }

  lemma {:induction false} FrameOn(w: World, depth: nat, subs: seq<JsSub>, script: Script, i: nat, chain: Chain)
    requires i < |subs|
    ensures FrameWalk(w, depth, subs, script, i, chain)
            == FrameWalk(if PassedOver(subs[i], chain) then w else TakeTurn(w, depth, subs[i], script, i),
                         depth, subs, script, i + 1, Link(subs[i], script, i, chain))
  {
  }
}
