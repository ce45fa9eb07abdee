/** What a channel store means: one flat list of subscriptions in registration order, and how the keyed
    descriptors and the id index represent it. */
module ChannelSpec {
  import opened Multiplexer

  /** A live subscription under its caller-allocated id. */
  datatype Sub = Sub(channel: Name, id: nat, owner: Name, handler: Handler)

  /** Where the index says a caller-allocated id lives. */
  datatype Where = Where(channel: Name, subId: nat, owner: Name)

  /** A subscriber as a snapshot reports it. */
  datatype Row = Row(owner: Name, handler: Handler)

  ghost function RowsOf(s: seq<Sub>): (r: seq<Row>)
    ensures |r| == |s|
    ensures forall k | 0 <= k < |s| :: r[k] == Row(s[k].owner, s[k].handler)
  {
    if s == [] then [] else [Row(s[0].owner, s[0].handler)] + RowsOf(s[1..])
  }

  /** The ways a removal names its victims. */
  datatype Test =
    | OnChannel(channel: Name)
    | WithId(id: nat)
    | WithAnyId(ids: seq<nat>)
    | OwnedBy(owner: Name)
    | OwnedOn(place: Name, holder: Name)

  predicate Meets(t: Test, e: Sub) {
    match t
    case OnChannel(channel) => e.channel == channel
    case WithId(id) => e.id == id
    case WithAnyId(ids) => e.id in ids
    case OwnedBy(owner) => e.owner == owner
    case OwnedOn(place, holder) => e.channel == place && e.owner == holder
  }

  /** The subscriptions for which the test answers `want`. */
  ghost function Keep(s: seq<Sub>, t: Test, want: bool): (r: seq<Sub>)
    ensures |r| <= |s|
  {
    if s == [] then []
    else if Meets(t, s[0]) == want then [s[0]] + Keep(s[1..], t, want)
    else Keep(s[1..], t, want)
  }

  ghost function On(s: seq<Sub>, channel: Name): seq<Sub> {
    Keep(s, OnChannel(channel), true)
  }

  ghost function Without(s: seq<Sub>, t: Test): seq<Sub> {
    Keep(s, t, false)
  }

  ghost function Moved(s: seq<Sub>, to: Name): (r: seq<Sub>)
    ensures |r| == |s|
    ensures forall i | 0 <= i < |s| :: r[i] == s[i].(channel := to)
  {
    if s == [] then [] else [s[0].(channel := to)] + Moved(s[1..], to)
  }

  /** The subscriptions of `from` go to the end of the list, in their order. */
  ghost function Renamed(s: seq<Sub>, from: Name, to: Name): seq<Sub> {
    if from == to then s else Without(s, OnChannel(from)) + Moved(On(s, from), to)
  }

  /** `names` are the channels that had a subscription in `before` and have none in `after`, each once. */
  ghost predicate Emptied(names: seq<Name>, before: seq<Sub>, after: seq<Sub>) {
    && (forall i, j | 0 <= i < j < |names| :: names[i] != names[j])
    && (forall i | 0 <= i < |names| :: On(before, names[i]) != [] && On(after, names[i]) == [])
    && (forall name | On(before, name) != [] && On(after, name) == [] :: name in names)
  }

  // ---- the representation ----

  ghost function SubIdOf(ids: map<nat, Where>, id: nat): nat {
    if id in ids then ids[id].subId else 0
  }

  ghost function Entry(e: Sub, ids: map<nat, Where>): Subscription {
    Subscription(SubIdOf(ids, e.id), Normal, Pre, e.owner, e.handler, true, 0)
  }

  ghost function Concrete(s: seq<Sub>, ids: map<nat, Where>): (r: seq<Subscription>)
    ensures |r| == |s|
    ensures forall i | 0 <= i < |s| :: r[i] == Entry(s[i], ids)
  {
    if s == [] then [] else [Entry(s[0], ids)] + Concrete(s[1..], ids)
  }

  /** The index has exactly the live ids, each once, with its channel and owner. */
  ghost predicate Indexed(s: seq<Sub>, ids: map<nat, Where>) {
    && (forall i | 0 <= i < |s| :: s[i].id in ids && ids[s[i].id].channel == s[i].channel && ids[s[i].id].owner == s[i].owner)
    && (forall i, j | 0 <= i < j < |s| :: s[i].id != s[j].id)
    && (forall id | id in ids :: exists i :: 0 <= i < |s| && s[i].id == id)
  }

  /** A channel has a descriptor exactly while it has a subscription, and the descriptor lists its subscriptions. */
  ghost predicate Listing(s: seq<Sub>, ids: map<nat, Where>, lists: map<Name, seq<Subscription>>) {
    && (forall channel | channel in lists :: lists[channel] != [] && lists[channel] == Concrete(On(s, channel), ids))
    && (forall channel | On(s, channel) != [] :: channel in lists)
  }

  ghost predicate Represents(s: seq<Sub>, ids: map<nat, Where>, lists: map<Name, seq<Subscription>>) {
    Indexed(s, ids) && Listing(s, ids, lists)
  }

  // ---- filtering ----

  lemma {:induction false} KeepHead(e: Sub, s: seq<Sub>, t: Test, want: bool)
    ensures Keep([e] + s, t, want) == if Meets(t, e) == want then [e] + Keep(s, t, want) else Keep(s, t, want)
  {
  }

  lemma {:induction false} KeepAppend(a: seq<Sub>, b: seq<Sub>, t: Test, want: bool)
    ensures Keep(a + b, t, want) == Keep(a, t, want) + Keep(b, t, want)
  {
    hide Keep, Meets;
    KeepNone(t, want);
    if a == [] {
      assert a + b == b;
    } else {
      KeepAppend(a[1..], b, t, want);
      KeepHead(a[0], a[1..] + b, t, want);
      KeepHead(a[0], a[1..], t, want);
      assert a + b == [a[0]] + (a[1..] + b);
      assert a == [a[0]] + a[1..];
      var x, y := Keep(a[1..], t, want), Keep(b, t, want);
      assert [a[0]] + (x + y) == ([a[0]] + x) + y;
    }
  }

  lemma {:induction false} KeepNone(t: Test, want: bool)
    ensures Keep([], t, want) == []
  {
  }

  lemma {:induction false} KeepSwap(s: seq<Sub>, t: Test, want: bool, u: Test, wish: bool)
    ensures Keep(Keep(s, t, want), u, wish) == Keep(Keep(s, u, wish), t, want)
  {
    if s != [] {
      KeepSwap(s[1..], t, want, u, wish);
      KeepHead(s[0], Keep(s[1..], t, want), u, wish);
      KeepHead(s[0], Keep(s[1..], u, wish), t, want);
    }
  }

  /** The kept ones are the ones that pass, in order: position `k` comes from a position at or after `k`. */
  lemma {:induction false} KeptFrom(s: seq<Sub>, t: Test, want: bool, k: nat) returns (i: nat)
    requires k < |Keep(s, t, want)|
    ensures k <= i < |s| && s[i] == Keep(s, t, want)[k] && Meets(t, s[i]) == want
  {
    if Meets(t, s[0]) == want {
      if k == 0 {
        i := 0;
      } else {
        i := KeptFrom(s[1..], t, want, k - 1);
        i := i + 1;
      }
    } else {
      i := KeptFrom(s[1..], t, want, k);
      i := i + 1;
    }
  }

  lemma {:induction false} KeptAt(s: seq<Sub>, t: Test, want: bool, i: nat) returns (k: nat)
    requires i < |s| && Meets(t, s[i]) == want
    ensures k < |Keep(s, t, want)| && Keep(s, t, want)[k] == s[i]
  {
    if i == 0 {
      k := 0;
    } else {
      k := KeptAt(s[1..], t, want, i - 1);
      if Meets(t, s[0]) == want {
        k := k + 1;
      }
    }
  }

  lemma {:induction false} KeepsAll(s: seq<Sub>, t: Test, want: bool)
    requires forall i | 0 <= i < |s| :: Meets(t, s[i]) == want
    ensures Keep(s, t, want) == s && Keep(s, t, !want) == []
  {
    if s != [] {
      KeepsAll(s[1..], t, want);
    }
  }

  lemma {:induction false} AllOn(s: seq<Sub>, channel: Name)
    ensures forall k | 0 <= k < |On(s, channel)| :: On(s, channel)[k].channel == channel
  {
    forall k | 0 <= k < |On(s, channel)| ensures On(s, channel)[k].channel == channel {
      var _ := KeptFrom(s, OnChannel(channel), true, k);
    }
  }

  ghost predicate DistinctKeys(s: seq<Sub>) {
    forall i, j | 0 <= i < j < |s| :: s[i].id != s[j].id
  }

  lemma {:induction false} DistinctKept(s: seq<Sub>, t: Test, want: bool)
    requires DistinctKeys(s)
    ensures DistinctKeys(Keep(s, t, want))
  {
    if s != [] {
      DistinctKept(s[1..], t, want);
      var rest := Keep(s[1..], t, want);
      forall k | 0 <= k < |rest| ensures rest[k].id != s[0].id {
        var i := KeptFrom(s[1..], t, want, k);
      }
    }
  }

  lemma {:induction false} SameConcrete(s: seq<Sub>, ids: map<nat, Where>, others: map<nat, Where>)
    requires forall i | 0 <= i < |s| :: SubIdOf(ids, s[i].id) == SubIdOf(others, s[i].id)
    ensures Concrete(s, ids) == Concrete(s, others)
  {
  }

  // ---- removals ----

  /** The index entries that outlive a removal. */
  ghost predicate IndexThinned(s: seq<Sub>, t: Test, ids: map<nat, Where>, after: map<nat, Where>) {
    && (forall i | 0 <= i < |s| :: s[i].id in after <==> !Meets(t, s[i]))
    && (forall id | id in after :: id in ids && after[id] == ids[id])
  }

  /** The descriptors that outlive a removal, thinned. */
  ghost predicate ListsThinned(s: seq<Sub>, t: Test, ids: map<nat, Where>, after: map<Name, seq<Subscription>>) {
    && (forall channel | channel in after :: after[channel] != [] && after[channel] == Concrete(Without(On(s, channel), t), ids))
    && (forall channel | Without(On(s, channel), t) != [] :: channel in after)
  }

  lemma {:induction false} IndexedThinned(s: seq<Sub>, ids: map<nat, Where>, t: Test, after: map<nat, Where>)
    requires Indexed(s, ids) && IndexThinned(s, t, ids, after)
    ensures Indexed(Without(s, t), after)
  {
    var rest := Without(s, t);
    DistinctKept(s, t, false);
    forall k | 0 <= k < |rest|
      ensures rest[k].id in after && after[rest[k].id].channel == rest[k].channel && after[rest[k].id].owner == rest[k].owner
    {
      var i := KeptFrom(s, t, false, k);
    }
    forall id | id in after ensures exists k :: 0 <= k < |rest| && rest[k].id == id {
      var i :| 0 <= i < |s| && s[i].id == id;
      var k := KeptAt(s, t, false, i);
    }
  }

  lemma {:induction false} Thinned(s: seq<Sub>, ids: map<nat, Where>, t: Test, after: map<nat, Where>,
                                   lists: map<Name, seq<Subscription>>)
    requires Indexed(s, ids) && IndexThinned(s, t, ids, after) && ListsThinned(s, t, ids, lists)
    ensures Represents(Without(s, t), after, lists)
  {
    IndexedThinned(s, ids, t, after);
    forall channel ensures On(Without(s, t), channel) == Without(On(s, channel), t) {
      KeepSwap(s, t, false, OnChannel(channel), true);
    }
    forall channel | channel in lists ensures lists[channel] == Concrete(On(Without(s, t), channel), after) {
      var on := On(Without(s, t), channel);
      forall k | 0 <= k < |on| ensures SubIdOf(ids, on[k].id) == SubIdOf(after, on[k].id) {
        var i := KeptFrom(Without(s, t), OnChannel(channel), true, k);
      }
      SameConcrete(on, ids, after);
    }
  }

  lemma {:induction false} OwnerThins(s: seq<Sub>, t: Test, owner: Name, ids: map<nat, Where>)
    requires forall i | 0 <= i < |s| :: Meets(t, s[i]) <==> s[i].owner == owner
    ensures WithoutOwner(Concrete(s, ids), owner) == Concrete(Without(s, t), ids)
  {
    if s != [] {
      OwnerThins(s[1..], t, owner, ids);
    }
  }

  lemma {:induction false} ConcreteHead(e: Sub, s: seq<Sub>, ids: map<nat, Where>)
    ensures Concrete([e] + s, ids) == [Entry(e, ids)] + Concrete(s, ids)
  {
    assert ([e] + s)[1..] == s;
  }

  lemma {:induction false} WithoutIdHead(e: Subscription, subs: seq<Subscription>, id: nat)
    ensures WithoutId([e] + subs, id) == if e.id == id then WithoutId(subs, id) else [e] + WithoutId(subs, id)
  {
    assert ([e] + subs)[1..] == subs;
  }

  lemma {:induction false} DistinctHead(s: seq<Sub>, ids: map<nat, Where>)
    requires s != [] && DistinctKeys(s) && DistinctIds(Concrete(s, ids))
    ensures DistinctKeys(s[1..]) && DistinctIds(Concrete(s[1..], ids))
    ensures forall k | 0 <= k < |s[1..]| :: s[1..][k].id != s[0].id && Concrete(s[1..], ids)[k].id != Entry(s[0], ids).id
  {
    hide Concrete;
    var c, rest := Concrete(s, ids), Concrete(s[1..], ids);
    assert forall k | 0 <= k < |rest| :: s[1..][k] == s[k + 1] && rest[k] == c[k + 1];
  }

  lemma {:induction false} IdThins(s: seq<Sub>, ids: map<nat, Where>, at: nat)
    requires at < |s| && DistinctKeys(s) && DistinctIds(Concrete(s, ids))
    ensures WithoutId(Concrete(s, ids), SubIdOf(ids, s[at].id)) == Concrete(Without(s, WithId(s[at].id)), ids)
  {
    hide Concrete, WithoutId, Keep, DistinctKeys, DistinctIds;
    var e, rest, id := s[0], s[1..], s[at].id;
    assert s == [e] + rest;
    DistinctHead(s, ids);
    ConcreteHead(e, rest, ids);
    WithoutIdHead(Entry(e, ids), Concrete(rest, ids), SubIdOf(ids, id));
    KeepHead(e, rest, WithId(id), false);
    if at == 0 {
      AbsentIdChangesNothing(Concrete(rest, ids), SubIdOf(ids, id));
      KeepsAll(rest, WithId(id), false);
    } else {
      assert rest[at - 1].id == id && Concrete(rest, ids)[at - 1].id == SubIdOf(ids, id);
      IdThins(rest, ids, at - 1);
      ConcreteHead(e, Without(rest, WithId(id)), ids);
    }
  }

  lemma {:induction false} AllEnabled(s: seq<Sub>, ids: map<nat, Where>)
    ensures CountEnabled(Concrete(s, ids)) == |s|
  {
    if s != [] {
      AllEnabled(s[1..], ids);
      assert Concrete(s, ids)[1..] == Concrete(s[1..], ids);
    }
  }

  // ---- additions ----

  lemma {:induction false} PlaceLast(subs: seq<Subscription>, s: Subscription)
    requires forall i | 0 <= i < |subs| :: Rank(subs[i].priority) <= Rank(s.priority)
    ensures Place(subs, s) == subs + [s]
  {
    PlaceAt(subs, s, |subs|);
  }

  lemma {:induction false} ConcreteAppend(a: seq<Sub>, b: seq<Sub>, ids: map<nat, Where>)
    ensures Concrete(a + b, ids) == Concrete(a, ids) + Concrete(b, ids)
  {
  }

  lemma {:induction false} OnAppend(s: seq<Sub>, e: Sub, channel: Name)
    ensures On(s + [e], channel) == if e.channel == channel then On(s, channel) + [e] else On(s, channel)
  {
    KeepAppend(s, [e], OnChannel(channel), true);
    assert Keep([e][1..], OnChannel(channel), true) == [];
  }

  lemma {:induction false} IndexedAdded(s: seq<Sub>, ids: map<nat, Where>, e: Sub, subId: nat)
    requires Indexed(s, ids) && e.id !in ids
    ensures Indexed(s + [e], ids[e.id := Where(e.channel, subId, e.owner)])
  {
    var s', ids' := s + [e], ids[e.id := Where(e.channel, subId, e.owner)];
    forall id | id in ids' ensures exists i :: 0 <= i < |s'| && s'[i].id == id {
      if id == e.id {
        assert s'[|s|].id == id;
      } else {
        var i :| 0 <= i < |s| && s[i].id == id;
        assert s'[i].id == id;
      }
    }
  }

  ghost function ListOf(lists: map<Name, seq<Subscription>>, channel: Name): seq<Subscription> {
    if channel in lists then lists[channel] else []
  }

  lemma {:induction false} ListOfConcrete(s: seq<Sub>, ids: map<nat, Where>, lists: map<Name, seq<Subscription>>, channel: Name)
    requires Listing(s, ids, lists)
    ensures ListOf(lists, channel) == Concrete(On(s, channel), ids)
  {
  }

  lemma {:induction false} OnAdded(s: seq<Sub>, ids: map<nat, Where>, e: Sub, subId: nat, channel: Name)
    requires Indexed(s, ids) && e.id !in ids
    ensures Concrete(On(s + [e], channel), ids[e.id := Where(e.channel, subId, e.owner)])
            == Concrete(On(s, channel), ids) + if channel == e.channel then [Subscription(subId, Normal, Pre, e.owner, e.handler, true, 0)] else []
    ensures On(s + [e], channel) != [] <==> On(s, channel) != [] || channel == e.channel
  {
    var ids' := ids[e.id := Where(e.channel, subId, e.owner)];
    OnAppend(s, e, channel);
    StillConcrete(s, ids, ids', channel);
    if channel == e.channel {
      ConcreteAppend(On(s, channel), [e], ids');
    }
  }

  lemma {:induction false} Added(s: seq<Sub>, ids: map<nat, Where>, lists: map<Name, seq<Subscription>>, e: Sub, subId: nat)
    requires Represents(s, ids, lists) && e.id !in ids
    ensures var base := ListOf(lists, e.channel);
            var sub := Subscription(subId, Normal, Pre, e.owner, e.handler, true, 0);
            Place(base, sub) == base + [sub]
            && Represents(s + [e], ids[e.id := Where(e.channel, subId, e.owner)], lists[e.channel := base + [sub]])
  {
    var base := ListOf(lists, e.channel);
    ListOfConcrete(s, ids, lists, e.channel);
    PlaceLast(base, Subscription(subId, Normal, Pre, e.owner, e.handler, true, 0));
    IndexedAdded(s, ids, e, subId);
    forall channel ensures ListOf(lists, channel) == Concrete(On(s, channel), ids) {
      ListOfConcrete(s, ids, lists, channel);
    }
    hide Concrete, On, Indexed, Place;
    forall channel: Name {
      OnAdded(s, ids, e, subId, channel);
    }
  }

  lemma {:induction false} StillConcrete(s: seq<Sub>, ids: map<nat, Where>, after: map<nat, Where>, channel: Name)
    requires forall i | 0 <= i < |s| && s[i].channel == channel :: SubIdOf(ids, s[i].id) == SubIdOf(after, s[i].id)
    ensures Concrete(On(s, channel), ids) == Concrete(On(s, channel), after)
  {
    var on := On(s, channel);
    forall k | 0 <= k < |on| ensures SubIdOf(ids, on[k].id) == SubIdOf(after, on[k].id) {
      var i := KeptFrom(s, OnChannel(channel), true, k);
    }
    SameConcrete(on, ids, after);
  }

  /** The emptied channels are named once each, and no other is. */
  lemma {:induction false} EmptiedOnce(names: seq<Name>, before: seq<Sub>, after: seq<Sub>, name: Name)
    requires Emptied(names, before, after)
    ensures multiset(names)[name] == if On(before, name) != [] && On(after, name) == [] then 1 else 0
  {
    hide On;
    OccursOnce(names, name);
  }

  lemma {:induction false} OccursOnce(names: seq<Name>, name: Name)
    requires forall i, j | 0 <= i < j < |names| :: names[i] != names[j]
    ensures multiset(names)[name] == if name in names then 1 else 0
  {
    if names != [] {
      OccursOnce(names[1..], name);
      assert names == [names[0]] + names[1..];
      assert name in names <==> name == names[0] || name in names[1..];
    }
  }
}
