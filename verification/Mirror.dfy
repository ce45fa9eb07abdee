/** The version-keyed cache between a channel store and the JavaScript multiplexer. */
module MuxMirror {
  import opened JsValues
  import opened Options
  import opened Multiplexer
  import opened ChannelSpec
  import opened ChannelStore
  import opened MuxScript
  import opened MuxRealm

  datatype Pushed = Pushed(version: nat, complete: bool)

  datatype Delivery = Delivered | Deferred

  /** A subscriber as a store reports it to the mirror. */
  datatype SourceRow = SourceRow(id: nat, owner: Name, handler: Handler, monitor: bool)

  /** Channel stores have neither ids for the multiplexer nor monitors. */
  function ChannelRows(rows: seq<Row>): (r: seq<SourceRow>)
    ensures |r| == |rows|
    ensures forall k | 0 <= k < |rows| :: r[k] == SourceRow(0, rows[k].owner, rows[k].handler, false)
  {
    seq(|rows|, k requires 0 <= k < |rows| => SourceRow(0, rows[k].owner, rows[k].handler, false))
  }

  /** The frame store reports its snapshot with both, each under its owner's present generation. */
  function FrameRows(listed: seq<Listed>, generationOf: Name -> nat): (r: seq<SourceRow>)
    ensures |r| == |listed|
    ensures forall k | 0 <= k < |listed| :: r[k] == FrameRow(listed[k], generationOf)
  {
    seq(|listed|, k requires 0 <= k < |listed| => FrameRow(listed[k], generationOf))
  }

  function FrameRow(l: Listed, generationOf: Name -> nat): SourceRow {
    SourceRow(l.id, l.owner, Handler(generationOf(l.owner), l.handler.callback), l.priority == Monitor)
  }

  /** The subscribers of a channel at present. */
  ghost function Present(flat: seq<Sub>, name: Name): (r: seq<SourceRow>)
    ensures |r| == |On(flat, name)|
  {
    ChannelRows(RowsOf(On(flat, name)))
  }

  function AsSub(row: SourceRow): JsSub {
    JsSub(row.owner, row.handler, None, row.id, row.monitor)
  }

  function Bare(sub: JsSub): JsSub {
    sub.(ctor := None)
  }

  /** An array shows a snapshot: the same subscribers in the same order, payload classes aside. */
  ghost predicate Shows(subs: seq<JsSub>, rows: seq<SourceRow>) {
    |subs| == |rows| && forall k | 0 <= k < |subs| :: Bare(subs[k]) == AsSub(rows[k])
  }

  /** Each subscriber has its owner's payload class, as far as the kind takes one. */
  ghost predicate Constructed(subs: seq<JsSub>, payload: bool, ctorOf: Name -> Option<nat>) {
    forall k | 0 <= k < |subs| :: subs[k].ctor == if payload then ctorOf(subs[k].owner) else None
  }

  /** No live subscriber is still without its payload class. */
  ghost predicate Complete(rows: seq<SourceRow>, payload: bool, ctorOf: Name -> Option<nat>, isLive: (Name, nat) -> bool) {
    forall k | 0 <= k < |rows| :: !(payload && ctorOf(rows[k].owner).None? && isLive(rows[k].owner, rows[k].handler.generation))
  }

  /** An array pushed at the store's present version shows the store's present snapshot, whatever happened before. */
  ghost predicate Coherent(pushed: map<Name, Pushed>, pruned: nat, seen: map<Channel, seq<JsSub>>, kind: nat, version: nat, flat: seq<Sub>) {
    && (forall name :: name in pushed <==> Channel(kind, name) in seen)
    && (forall name | name in pushed :: pushed[name].version <= version)
    && (forall name | name in pushed && pushed[name].version == version :: Shows(seen[Channel(kind, name)], Present(flat, name)))
    && pruned <= version
    && (pruned == version ==> Fresh(pushed, version))
  }

  ghost predicate Fresh(pushed: map<Name, Pushed>, version: nat) {
    forall name | name in pushed :: pushed[name].version == version
  }

  function Places(kind: nat, names: set<Name>): set<Channel> {
    set name | name in names :: Channel(kind, name)
  }

  lemma {:induction false} CoherentAt(pushed: map<Name, Pushed>, pruned: nat, seen: map<Channel, seq<JsSub>>, kind: nat, version: nat,
                                      flat: seq<Sub>, name: Name)
    requires Coherent(pushed, pruned, seen, kind, version, flat)
    ensures name in pushed && pushed[name].version == version ==>
              Channel(kind, name) in seen && Shows(seen[Channel(kind, name)], Present(flat, name))
  {
    hide Shows, Present;
  }

  /** An array that shows the present snapshot, recorded at the present version, keeps everything coherent. */
  lemma {:induction false} PushedCoherent(pushed: map<Name, Pushed>, pruned: nat, seen: map<Channel, seq<JsSub>>, kind: nat, version: nat,
                                          flat: seq<Sub>, name: Name, subs: seq<JsSub>, complete: bool)
    requires Coherent(pushed, pruned, seen, kind, version, flat) && Shows(subs, Present(flat, name))
    ensures Coherent(pushed[name := Pushed(version, complete)], pruned, seen[Channel(kind, name) := subs], kind, version, flat)
  {
    hide Shows, Present;
  }

  lemma {:induction false} CoherentFresh(pushed: map<Name, Pushed>, pruned: nat, seen: map<Channel, seq<JsSub>>, kind: nat, version: nat, flat: seq<Sub>)
    requires Coherent(pushed, pruned, seen, kind, version, flat)
    ensures pruned == version ==> Fresh(pushed, version)
    ensures forall name | name in pushed :: Channel(kind, name) in seen
  {
    hide Shows;
  }

  /** Without the arrays of the channels that changed, every array left is current. */
  lemma {:induction false} PrunedCoherent(pushed: map<Name, Pushed>, pruned: nat, seen: map<Channel, seq<JsSub>>, kind: nat, version: nat,
                                          flat: seq<Sub>, stale: set<Name>)
    requires Coherent(pushed, pruned, seen, kind, version, flat)
    requires stale == set name | name in pushed && pushed[name].version != version
    ensures Coherent(pushed - stale, version, seen - Places(kind, stale), kind, version, flat) && Fresh(pushed - stale, version)
  {
    hide Shows, Present;
    assert forall name :: Channel(kind, name) in Places(kind, stale) <==> name in stale;
  }

  /** Every mutation takes a newer version, so no mutation can make an array look current that is not. */
  lemma {:induction false} MutationKeepsCoherent(pushed: map<Name, Pushed>, pruned: nat, seen: map<Channel, seq<JsSub>>, kind: nat,
                                                 version: nat, flat: seq<Sub>, version': nat, flat': seq<Sub>)
    requires Coherent(pushed, pruned, seen, kind, version, flat) && version < version'
    ensures Coherent(pushed, pruned, seen, kind, version', flat')
  {
  }

  /** The subscribers as the multiplexer takes them. */
  method Subscribers(rows: seq<SourceRow>, payload: bool, ctorOf: Name -> Option<nat>, isLive: (Name, nat) -> bool) returns (subs: seq<JsSub>, complete: bool)
    ensures Shows(subs, rows) && Constructed(subs, payload, ctorOf)
    ensures complete == Complete(rows, payload, ctorOf, isLive)
  {
    subs, complete := [], true;
    for k := 0 to |rows|
      invariant Shows(subs, rows[..k]) && Constructed(subs, payload, ctorOf)
      invariant complete == Complete(rows[..k], payload, ctorOf, isLive)
    {
      var ctor := if payload then ctorOf(rows[k].owner) else None;
      if payload && ctor.None? && isLive(rows[k].owner, rows[k].handler.generation) {
        complete := false;
      }
      subs := subs + [JsSub(rows[k].owner, rows[k].handler, ctor, rows[k].id, rows[k].monitor)];
    }
    assert rows[..|rows|] == rows;
  }

  class Mirror {
    const mux: Mux
    const kind: nat
    /** Whether subscribers get a payload built in their own realm. */
    const payload: bool
    var pushed: map<Name, Pushed>
    var pruned: nat

    ghost predicate Valid()
      reads this`pushed, this`pruned, mux`kinds, mux`seen, mux`arrays, mux.arrays
    {
      mux.Valid()
    }

    ghost predicate CoherentWith(version: nat, flat: seq<Sub>)
      reads this`pushed, this`pruned, mux`seen
    {
      Coherent(pushed, pruned, mux.seen, kind, version, flat)
    }

    constructor (mux: Mux, kind: nat, payload: bool)
      requires mux.Valid() && forall name :: Channel(kind, name) !in mux.seen
      ensures this.mux == mux && this.kind == kind && Valid()
      ensures forall version: nat, flat | version > 0 :: CoherentWith(version, flat)
    {
      this.mux, this.kind, this.payload := mux, kind, payload;
      pushed, pruned := map[], 0;
    }

    method Push(store: Channels, name: Name, ctorOf: Name -> Option<nat>, isLive: (Name, nat) -> bool)
      requires Valid() && store.Valid() && CoherentWith(store.version, store.flat)
      modifies this`pushed, mux`kinds, mux`seen, mux`arrays
      ensures Valid() && fresh(mux.arrays - old(mux.arrays)) && old(mux.arrays) <= mux.arrays
      ensures exists subs ::
                && mux.seen == old(mux.seen)[Channel(kind, name) := subs] && Shows(subs, Present(store.flat, name))
                && Constructed(subs, payload, ctorOf)
      ensures pushed == old(pushed)[name := Pushed(store.version, Complete(Present(store.flat, name), payload, ctorOf, isLive))]
    {
      hide Mux.Valid, Channels.Valid, On, Shows, CoherentWith, Constructed, Complete;
      var snapshot := store.SnapshotOn(name);
      var rows := ChannelRows(snapshot);
      var subs, complete := Subscribers(rows, payload, ctorOf, isLive);
      mux.Set(Channel(kind, name), subs);
      pushed := pushed[name := Pushed(store.version, complete)];
    }

    /** The channel's array is current on return, and no array of another channel is left stale. */
    method Sync(store: Channels, name: Name, ctorOf: Name -> Option<nat>, isLive: (Name, nat) -> bool)
      requires Valid() && store.Valid() && CoherentWith(store.version, store.flat)
      modifies this`pushed, this`pruned, mux`kinds, mux`seen, mux`arrays
      ensures Valid() && CoherentWith(store.version, store.flat) && fresh(mux.arrays - old(mux.arrays)) && old(mux.arrays) <= mux.arrays
      ensures Fresh(pushed, store.version) && name in pushed
      ensures Channel(kind, name) in mux.seen && Shows(mux.seen[Channel(kind, name)], Present(store.flat, name))
      ensures forall at | at in old(mux.seen) && at.kind != kind :: at in mux.seen && mux.seen[at] == old(mux.seen)[at]
      ensures if name in old(pushed) && old(pushed)[name] == Pushed(store.version, true) then
                pushed[name] == old(pushed)[name] && mux.seen[Channel(kind, name)] == old(mux.seen)[Channel(kind, name)]
              else
                && pushed[name].complete == Complete(Present(store.flat, name), payload, ctorOf, isLive)
                && Constructed(mux.seen[Channel(kind, name)], payload, ctorOf)
    {
      hide Mux.Valid, Channels.Valid, Present, Shows, Constructed, Complete, Coherent, Fresh;
      CoherentAt(pushed, pruned, mux.seen, kind, store.version, store.flat, name);
      if name !in pushed || pushed[name] != Pushed(store.version, true) {
        ghost var pushed0, seen := pushed, mux.seen;
        Push(store, name, ctorOf, isLive);
        PushedCoherent(pushed0, pruned, seen, kind, store.version, store.flat, name, mux.seen[Channel(kind, name)], pushed[name].complete);
      }
      Prune(store.version, store.flat);
      CoherentAt(pushed, pruned, mux.seen, kind, store.version, store.flat, name);
    }

    /** Drops the arrays of every channel that changed since it was pushed. */
    method Prune(version: nat, ghost flat: seq<Sub>)
      requires Valid() && CoherentWith(version, flat)
      modifies this`pushed, this`pruned, mux`kinds, mux`seen
      ensures Valid() && CoherentWith(version, flat) && Fresh(pushed, version)
      ensures pruned == version
      ensures forall name | name in old(pushed) && old(pushed)[name].version == version ::
                name in pushed && pushed[name] == old(pushed)[name] && mux.seen[Channel(kind, name)] == old(mux.seen)[Channel(kind, name)]
      ensures forall at | at in old(mux.seen) && at.kind != kind :: at in mux.seen && mux.seen[at] == old(mux.seen)[at]
    {
      hide Mux.Valid, Coherent;
      CoherentFresh(pushed, pruned, mux.seen, kind, version, flat);
      if pruned == version {
        return;
      }
      var stale := set name | name in pushed && pushed[name].version != version;
      PrunedCoherent(pushed, pruned, mux.seen, kind, version, flat, stale);
      pushed := pushed - stale;
      pruned := version;
      if stale == {} {
        assert mux.seen - Places(kind, stale) == mux.seen;
        return;
      }
      mux.Drop(Places(kind, stale));
    }

    /** The way into the multiplexer for one event. With somebody subscribed and the host free, the channel's array, which
        shows the present snapshot; with nobody subscribed, no array, and no stale array survives. */
    method Open(store: Channels, name: Name, deferred: bool, ctorOf: Name -> Option<nat>, isLive: (Name, nat) -> bool)
      returns (subs: array?<JsSub>, delivery: Delivery)
      requires Valid() && store.Valid() && CoherentWith(store.version, store.flat)
      modifies this`pushed, this`pruned, mux`kinds, mux`seen, mux`arrays
      ensures Valid() && CoherentWith(store.version, store.flat) && fresh(mux.arrays - old(mux.arrays)) && old(mux.arrays) <= mux.arrays
      ensures forall at | at in old(mux.seen) && at.kind != kind :: at in mux.seen && mux.seen[at] == old(mux.seen)[at]
      ensures var rows := Present(store.flat, name);
              if rows == [] then subs == null && delivery == Delivered && (!deferred ==> Fresh(pushed, store.version))
              else if deferred then subs == null && delivery == Deferred
              else subs != null && delivery == Delivered && subs in mux.arrays && Shows(subs[..], rows)
    {
      hide Mux.Valid, Channels.Valid, Represents, On, Shows;
      var any := store.HasSubscribers(name);
      if !any {
        if pruned != store.version && pushed != map[] && !deferred {
          Prune(store.version, store.flat);
        }
        return null, Delivered;
      }
      if deferred {
        return null, Deferred;
      }
      Sync(store, name, ctorOf, isLive);
      mux.StateOf(Channel(kind, name));
      return mux.kinds[Channel(kind, name)], Delivered;
    }
  }

  // ---- the frame chain from a snapshot ----

  lemma {:induction false} SameChain(a: seq<Listed>, b: seq<Listed>, replies: seq<Reply>, n: nat)
    requires |a| == |b| == |replies| && n <= |a|
    requires forall i | 0 <= i < |a| :: a[i].id == b[i].id && (a[i].priority == Monitor <==> b[i].priority == Monitor)
    ensures Stopped(a, replies, n) <==> Stopped(b, replies, n)
    ensures Collapsed(a, replies, n) == Collapsed(b, replies, n) && Failures(a, replies, n) == Failures(b, replies, n)
  {
    if n != 0 {
      SameChain(a, b, replies, n - 1);
      StoppedStep(a, replies, n - 1);
      StoppedStep(b, replies, n - 1);
      hide Stopped;
    }
  }

  /** A frame over an array that shows a snapshot of the frame store is the native chain over that snapshot. */
  lemma {:induction false} FrameRunsSnapshot(w: World, depth: nat, at: Channel, script: Script, listed: seq<Listed>, generationOf: Name -> nat)
    requires at in w.channels && Shows(w.channels[at], FrameRows(listed, generationOf))
    ensures var chain, replies := RunFrame(w, depth, at, script).chain, AsReplies(w.channels[at], script);
            && |replies| == |listed|
            && HookResultOf(chain.result) == Collapsed(listed, replies, |listed|) && chain.errored == Failures(listed, replies, |listed|)
  {
    var subs := w.channels[at];
    FrameRunsChain(w, depth, at, script);
    forall i | 0 <= i < |subs| ensures AsChain(subs)[i].id == listed[i].id && (AsChain(subs)[i].priority == Monitor <==> listed[i].priority == Monitor) {
      assert Bare(subs[i]) == AsSub(FrameRows(listed, generationOf)[i]);
    }
    SameChain(AsChain(subs), listed, AsReplies(subs, script), |subs|);
  }

  /** An array is complete exactly if every live subscriber has its payload class, where one is built; an incomplete one is pushed again
      at the next event. */
  lemma {:induction false} CompleteExactly(subs: seq<JsSub>, rows: seq<SourceRow>, payload: bool, ctorOf: Name -> Option<nat>,
                                           isLive: (Name, nat) -> bool)
    requires Shows(subs, rows) && Constructed(subs, payload, ctorOf)
    ensures Complete(rows, payload, ctorOf, isLive) <==>
            !payload || forall k | 0 <= k < |subs| && isLive(subs[k].owner, subs[k].handler.generation) :: subs[k].ctor.Some?
    ensures payload ==> forall k | 0 <= k < |subs| :: subs[k].ctor == ctorOf(rows[k].owner)
    ensures !payload ==> forall k | 0 <= k < |subs| :: subs[k].ctor == None
  {
    assert forall k | 0 <= k < |subs| :: Bare(subs[k]) == AsSub(rows[k]);
  }

  /** An array shows a snapshot exactly if it has the same subscribers in the same order: owner, handler, id and whether a monitor. */
  lemma {:induction false} ShowsExactly(subs: seq<JsSub>, rows: seq<SourceRow>)
    ensures Shows(subs, rows) <==>
            && |subs| == |rows|
            && forall k | 0 <= k < |subs| ::
                 && subs[k].owner == rows[k].owner && subs[k].handler == rows[k].handler
                 && subs[k].id == rows[k].id && subs[k].monitor == rows[k].monitor
  {
    assert forall k | 0 <= k < |subs| && k < |rows| :: Bare(subs[k]) == AsSub(rows[k]) <==>
      subs[k].owner == rows[k].owner && subs[k].handler == rows[k].handler && subs[k].id == rows[k].id && subs[k].monitor == rows[k].monitor;
  }

  /** The rows of a store channel: its subscribers in the order of the list, none of them a monitor. */
  lemma {:induction false} PresentExactly(flat: seq<Sub>, name: Name, k: nat)
    requires k < |On(flat, name)|
    ensures Present(flat, name)[k] == SourceRow(0, On(flat, name)[k].owner, On(flat, name)[k].handler, false)
  {
  }
}
