/** The keyed subscription store: descriptors by channel name, and an index from caller-allocated ids. */
module ChannelStore {
  import opened Multiplexer
  import opened ChannelSpec

  datatype Pair = Pair(before: nat, after: nat)

  /** The first pair that starts with `before`. */
  function Lookup(remap: seq<Pair>, before: nat): nat {
    if remap == [] then 0 else if remap[0].before == before then remap[0].after else Lookup(remap[1..], before)
  }

  lemma {:induction false} LookupAt(remap: seq<Pair>, k: nat)
    requires k < |remap| && forall i, j | 0 <= i < j < |remap| :: remap[i].before != remap[j].before
    ensures Lookup(remap, remap[k].before) == remap[k].after
  {
    if k != 0 {
      LookupAt(remap[1..], k - 1);
    }
  }

  /** The index without an owner's entries. */
  function NotOwnedBy(ids: map<nat, Where>, owner: Name): map<nat, Where> {
    map id | id in ids && ids[id].owner != owner :: ids[id]
  }

  function NotOn(ids: map<nat, Where>, channel: Name): map<nat, Where> {
    map id | id in ids && ids[id].channel != channel :: ids[id]
  }

  function NotOwnedOn(ids: map<nat, Where>, channel: Name, owner: Name): map<nat, Where> {
    map id | id in ids && (ids[id].channel != channel || ids[id].owner != owner) :: ids[id]
  }

  /** Removing an owner everywhere, or on one channel, seen through the representation. */
  lemma {:induction false} OwnerRemoved(s: seq<Sub>, ids: map<nat, Where>, lists: map<Name, seq<Subscription>>, owner: Name,
                                        ids': map<nat, Where>, lists': map<Name, seq<Subscription>>)
    requires Represents(s, ids, lists)
    requires ids' == map id | id in ids && ids[id].owner != owner :: ids[id]
    requires lists' == map name | name in lists && WithoutOwner(lists[name], owner) != [] :: WithoutOwner(lists[name], owner)
    ensures Represents(Without(s, OwnedBy(owner)), ids', lists')
  {
    forall name ensures WithoutOwner(Concrete(On(s, name), ids), owner) == Concrete(Without(On(s, name), OwnedBy(owner)), ids) {
      OwnerThins(On(s, name), OwnedBy(owner), owner, ids);
    }
    assert ListsThinned(s, OwnedBy(owner), ids, lists') by {
      forall name | Without(On(s, name), OwnedBy(owner)) != [] ensures name in lists' {
        assert On(s, name) != [];
      }
    }
    Thinned(s, ids, OwnedBy(owner), ids', lists');
  }

  /** A removal that touches one channel only. */
  lemma {:induction false} OneThinned(s: seq<Sub>, ids: map<nat, Where>, lists: map<Name, seq<Subscription>>, t: Test, name: Name,
                                      left: seq<Subscription>, lists': map<Name, seq<Subscription>>)
    requires Represents(s, ids, lists) && name in lists
    requires Concrete(Without(On(s, name), t), ids) == left
    requires forall other | other != name :: Without(On(s, other), t) == On(s, other)
    requires lists' == if left == [] then lists - {name} else lists[name := left]
    ensures ListsThinned(s, t, ids, lists')
  {
    forall other | Without(On(s, other), t) != [] ensures other in lists' {
      assert On(s, other) != [];
    }
  }

  lemma {:induction false} Untouched(s: seq<Sub>, t: Test, name: Name)
    requires forall i | 0 <= i < |s| && Meets(t, s[i]) :: s[i].channel == name
    ensures forall other | other != name :: Without(On(s, other), t) == On(s, other)
  {
    forall other | other != name ensures Without(On(s, other), t) == On(s, other) {
      var on := On(s, other);
      forall k | 0 <= k < |on| ensures !Meets(t, on[k]) {
        var i := KeptFrom(s, OnChannel(other), true, k);
      }
      KeepsAll(on, t, false);
    }
  }

  lemma {:induction false} OwnerRemovedOn(s: seq<Sub>, ids: map<nat, Where>, lists: map<Name, seq<Subscription>>, name: Name, owner: Name,
                                          ids': map<nat, Where>, lists': map<Name, seq<Subscription>>)
    requires Represents(s, ids, lists) && name in lists
    requires ids' == NotOwnedOn(ids, name, owner)
    requires var left := WithoutOwner(lists[name], owner);
             lists' == if left == [] then lists - {name} else lists[name := left]
    ensures Represents(Without(s, OwnedOn(name, owner)), ids', lists')
  {
    var t := OwnedOn(name, owner);
    assert IndexThinned(s, t, ids, ids');
    AllOn(s, name);
    OwnerThins(On(s, name), t, owner, ids);
    Untouched(s, t, name);
    ListOfConcrete(s, ids, lists, name);
    hide Concrete, On, WithoutOwner, IndexThinned, ListsThinned;
    OneThinned(s, ids, lists, t, name, WithoutOwner(lists[name], owner), lists');
    Thinned(s, ids, t, ids', lists');
  }

  lemma {:induction false} ChannelRemoved(s: seq<Sub>, ids: map<nat, Where>, lists: map<Name, seq<Subscription>>, name: Name, ids': map<nat, Where>)
    requires Represents(s, ids, lists)
    requires ids' == NotOn(ids, name)
    ensures Represents(Without(s, OnChannel(name)), ids', lists - {name})
  {
    var t := OnChannel(name);
    forall other ensures Without(On(s, other), t) == if other == name then [] else On(s, other) {
      AllOn(s, other);
      KeepsAll(On(s, other), t, other == name);
    }
    assert ListsThinned(s, t, ids, lists - {name});
    Thinned(s, ids, t, ids', lists - {name});
  }

  lemma {:induction false} IdRemoved(s: seq<Sub>, ids: map<nat, Where>, lists: map<Name, seq<Subscription>>, id: nat, lists': map<Name, seq<Subscription>>)
    requires Represents(s, ids, lists) && id in ids && ids[id].channel in lists
    requires DistinctIds(lists[ids[id].channel])
    requires var name := ids[id].channel;
             var left := WithoutId(lists[name], ids[id].subId);
             lists' == if left == [] then lists - {name} else lists[name := left]
    ensures Represents(Without(s, WithId(id)), ids - {id}, lists')
  {
    var t, name := WithId(id), ids[id].channel;
    assert IndexThinned(s, t, ids, ids - {id});
    var i :| 0 <= i < |s| && s[i].id == id;
    var k := KeptAt(s, OnChannel(name), true, i);
    DistinctKept(s, OnChannel(name), true);
    ListOfConcrete(s, ids, lists, name);
    IdThins(On(s, name), ids, k);
    Untouched(s, t, name);
    hide Concrete, On, WithoutId, IndexThinned, ListsThinned;
    OneThinned(s, ids, lists, t, name, WithoutId(lists[name], ids[id].subId), lists');
    Thinned(s, ids, t, ids - {id}, lists');
  }

  lemma {:induction false} LastPlaced(s: seq<Sub>, ids: map<nat, Where>, lists: map<Name, seq<Subscription>>, e: Sub, subId: nat,
                                      lists': map<Name, seq<Subscription>>)
    requires Represents(s, ids, lists)
    requires var base := ListOf(lists, e.channel);
             lists' == lists[e.channel := base][e.channel := Place(base, Subscription(subId, Normal, Pre, e.owner, e.handler, true, 0))]
    ensures lists' == lists[e.channel := ListOf(lists, e.channel) + [Subscription(subId, Normal, Pre, e.owner, e.handler, true, 0)]]
  {
    ListOfConcrete(s, ids, lists, e.channel);
    PlaceLast(ListOf(lists, e.channel), Subscription(subId, Normal, Pre, e.owner, e.handler, true, 0));
  }

  /** Adding at the end, seen through the descriptor the channel has or is given. */
  lemma {:induction false} Appended(s: seq<Sub>, ids: map<nat, Where>, lists: map<Name, seq<Subscription>>, e: Sub, subId: nat,
                                    lists': map<Name, seq<Subscription>>)
    requires Represents(s, ids, lists) && e.id !in ids
    requires var base := ListOf(lists, e.channel);
             lists' == lists[e.channel := base][e.channel := Place(base, Subscription(subId, Normal, Pre, e.owner, e.handler, true, 0))]
    ensures Represents(s + [e], ids[e.id := Where(e.channel, subId, e.owner)], lists')
  {
    var base := ListOf(lists, e.channel);
    Added(s, ids, lists, e, subId);
    hide Represents, Place, ListOf;
    assert lists' == lists[e.channel := base + [Subscription(subId, Normal, Pre, e.owner, e.handler, true, 0)]];
  }

  /** Once a live id has been given away again, no list of subscriptions fits the descriptors and the index: the subscription
      that had the id is still listed, and nothing leads to it any more. */
  lemma {:induction false} ReusedIdLost(s: seq<Sub>, ids: map<nat, Where>, lists: map<Name, seq<Subscription>>, e: Sub, subId: nat, s': seq<Sub>)
    requires Represents(s, ids, lists) && e.id in ids
    requires ids[e.id].channel in lists ==> DistinctIds(lists[ids[e.id].channel])
    requires forall i | 0 <= i < |ListOf(lists, e.channel)| :: ListOf(lists, e.channel)[i].id != subId
    ensures !Represents(s', ids[e.id := Where(e.channel, subId, e.owner)],
                        lists[e.channel := ListOf(lists, e.channel) + [Subscription(subId, Normal, Pre, e.owner, e.handler, true, 0)]])
  {
    hide Represents, Keep, Concrete, DistinctIds;
    var ids', was := ids[e.id := Where(e.channel, subId, e.owner)], ids[e.id];
    var lists' := lists[e.channel := ListOf(lists, e.channel) + [Subscription(subId, Normal, Pre, e.owner, e.handler, true, 0)]];
    var k := PlaceOf(s, ids, lists, e.id);
    if Represents(s', ids', lists') {
      assert lists'[was.channel][k] == lists[was.channel][k];
      var id := IdAt(s', ids', lists', was.channel, k);
      assert id != e.id;
      var m := PlaceOf(s, ids, lists, id);
      SamePlace(lists[was.channel], k, m);
    }
  }

  lemma {:induction false} SamePlace(subs: seq<Subscription>, k: nat, m: nat)
    requires DistinctIds(subs) && k < |subs| && m < |subs| && subs[k].id == subs[m].id
    ensures k == m
  {
  }

  /** Where the descriptor of its channel lists the subscription of an id. */
  lemma {:induction false} PlaceOf(s: seq<Sub>, ids: map<nat, Where>, lists: map<Name, seq<Subscription>>, id: nat) returns (k: nat)
    requires Represents(s, ids, lists) && id in ids
    ensures ids[id].channel in lists && k < |On(s, ids[id].channel)| == |lists[ids[id].channel]|
    ensures lists[ids[id].channel][k].id == ids[id].subId && On(s, ids[id].channel)[k].id == id
  {
    hide Keep;
    var i :| 0 <= i < |s| && s[i].id == id;
    k := KeptAt(s, OnChannel(ids[id].channel), true, i);
  }

  /** Whose subscription a descriptor lists at a place. */
  lemma {:induction false} IdAt(s: seq<Sub>, ids: map<nat, Where>, lists: map<Name, seq<Subscription>>, channel: Name, k: nat) returns (id: nat)
    requires Represents(s, ids, lists) && channel in lists && k < |lists[channel]|
    ensures id in ids && ids[id].channel == channel && ids[id].subId == lists[channel][k].id
  {
    hide Keep;
    var j := KeptFrom(s, OnChannel(channel), true, k);
    id := s[j].id;
  }

  /** After a rename the target has its own subscribers, then those of `from`; no other channel changes, and
      every subscription is still there under its id. */
  lemma {:induction false} RenameAppends(s: seq<Sub>, from: Name, to: Name)
    requires from != to
    ensures var r := Renamed(s, from, to);
            && On(r, to) == On(s, to) + Moved(On(s, from), to) && On(r, from) == []
            && (forall other | other != from && other != to :: On(r, other) == On(s, other))
            && (forall i | 0 <= i < |s| :: exists k :: 0 <= k < |r| && r[k] == if s[i].channel == from then s[i].(channel := to) else s[i])
  {
    var left, moved := Without(s, OnChannel(from)), Moved(On(s, from), to);
    var r := left + moved;
    forall other ensures On(r, other) == (if other == from then [] else On(s, other)) + if other == to then moved else [] {
      KeepAppend(left, moved, OnChannel(other), true);
      KeepSwap(s, OnChannel(from), false, OnChannel(other), true);
      AllOn(s, other);
      KeepsAll(On(s, other), OnChannel(from), other == from);
      KeepsAll(moved, OnChannel(other), other == to);
    }
    forall i | 0 <= i < |s| ensures exists k :: 0 <= k < |r| && r[k] == if s[i].channel == from then s[i].(channel := to) else s[i] {
      if s[i].channel == from {
        var k := KeptAt(s, OnChannel(from), true, i);
        assert r[|left| + k] == s[i].(channel := to);
      } else {
        var k := KeptAt(s, OnChannel(from), false, i);
        assert r[k] == s[i];
      }
    }
  }

  /** A channel has a subscription in the list exactly when it has a descriptor. */
  lemma {:induction false} PresentIffListed(s: seq<Sub>, ids: map<nat, Where>, lists: map<Name, seq<Subscription>>, name: Name)
    requires Represents(s, ids, lists)
    ensures On(s, name) != [] <==> name in lists
  {
  }

  /** Id removals one by one are one removal. */
  lemma {:induction false} WithoutNext(s: seq<Sub>, ids: seq<nat>, k: nat)
    requires k < |ids|
    ensures Without(Without(s, WithAnyId(ids[..k])), WithId(ids[k])) == Without(s, WithAnyId(ids[..k + 1]))
  {
    if s != [] {
      WithoutNext(s[1..], ids, k);
      KeepHead(s[0], Without(s[1..], WithAnyId(ids[..k])), WithId(ids[k]), false);
      assert s[0].id in ids[..k + 1] <==> s[0].id in ids[..k] || s[0].id == ids[k];
    }
  }

  lemma {:induction false} NotIndexed(s: seq<Sub>, ids: map<nat, Where>, id: nat)
    requires Indexed(s, ids) && id !in ids
    ensures Without(s, WithId(id)) == s
  {
    KeepsAll(s, WithId(id), false);
  }

  /** Emptied after one more removal. */
  lemma {:induction false} EmptiedNext(names: seq<Name>, before: seq<Sub>, middle: seq<Sub>, after: seq<Sub>, name: Name)
    requires Emptied(names, before, middle)
    requires forall other | other != name :: On(after, other) == On(middle, other)
    requires On(middle, name) != [] ==> On(before, name) != []
    requires On(middle, name) == [] ==> On(after, name) == []
    ensures Emptied(if On(middle, name) != [] && On(after, name) == [] then names + [name] else names, before, after)
  {
  }

  lemma {:induction false} IndexedThere(s: seq<Sub>, ids: map<nat, Where>, lists: map<Name, seq<Subscription>>, id: nat)
    requires Represents(s, ids, lists) && id in ids
    ensures ids[id].channel in lists
  {
    var i :| 0 <= i < |s| && s[i].id == id;
    var k := KeptAt(s, OnChannel(s[i].channel), true, i);
  }

  lemma {:induction false} AbsentId(s: seq<Sub>, ids: map<nat, Where>, lists: map<Name, seq<Subscription>>, id: nat)
    requires Represents(s, ids, lists) && id !in ids
    ensures Without(s, WithId(id)) == s
  {
    NotIndexed(s, ids, id);
  }

  lemma {:induction false} NoneOn(s: seq<Sub>, ids: map<nat, Where>, lists: map<Name, seq<Subscription>>, name: Name, t: Test)
    requires Represents(s, ids, lists) && name !in lists
    requires t == OnChannel(name) || (t.OwnedOn? && t.place == name)
    ensures Without(s, t) == s && On(s, name) == []
  {
    forall i | 0 <= i < |s| ensures !Meets(t, s[i]) {
      if s[i].channel == name {
        var k := KeptAt(s, OnChannel(name), true, i);
      }
    }
    KeepsAll(s, t, false);
  }

  lemma {:induction false} NothingYet(s: seq<Sub>)
    ensures Without(s, WithAnyId([][..0])) == s && Emptied([], s, s)
  {
    KeepsAll(s, WithAnyId([][..0]), false);
  }

  /** A removal never fills a channel. */
  lemma {:induction false} OnlyFewer(s: seq<Sub>, t: Test, name: Name)
    ensures On(s, name) == [] ==> On(Without(s, t), name) == []
  {
    KeepSwap(s, t, false, OnChannel(name), true);
  }

  /** Whether a thinned list is empty, by count or by length. */
  lemma {:induction false} EmptyByCount(s: seq<Sub>, ids: map<nat, Where>)
    ensures CountEnabled(Concrete(s, ids)) == 0 <==> Concrete(s, ids) == []
  {
  }

  lemma {:induction false} OneIdRemoved(s: seq<Sub>, ids: map<nat, Where>, lists: map<Name, seq<Subscription>>, id: nat)
    requires Represents(s, ids, lists) && id in ids && ids[id].channel in lists && DistinctIds(lists[ids[id].channel])
    ensures var name := ids[id].channel;
            var left := WithoutId(lists[name], ids[id].subId);
            var s' := Without(s, WithId(id));
            && CountEnabled(lists[name]) > 0 && (CountEnabled(left) == 0 <==> On(s', name) == [])
            && On(s, name) != [] && (forall other | other != name :: On(s', other) == On(s, other))
            && Represents(s', ids - {id}, if CountEnabled(left) == 0 then lists[name := left] - {name} else lists[name := left])
  {
    var name := ids[id].channel;
    var left := WithoutId(lists[name], ids[id].subId);
    var lists' := if left == [] then lists - {name} else lists[name := left];
    IdRemoved(s, ids, lists, id, lists');
    var s' := Without(s, WithId(id));
    forall other ensures On(s', other) == Without(On(s, other), WithId(id)) {
      KeepSwap(s, WithId(id), false, OnChannel(other), true);
    }
    assert forall i | 0 <= i < |s| && Meets(WithId(id), s[i]) :: s[i].channel == name;
    Untouched(s, WithId(id), name);
    LeftOver(s, ids, lists, s', ids - {id}, lists', name, left);
  }

  lemma {:induction false} OneOwnerRemoved(s: seq<Sub>, ids: map<nat, Where>, lists: map<Name, seq<Subscription>>, name: Name, owner: Name)
    requires Represents(s, ids, lists) && name in lists
    ensures var left := WithoutOwner(lists[name], owner);
            var ids' := NotOwnedOn(ids, name, owner);
            var s' := Without(s, OwnedOn(name, owner));
            && CountEnabled(lists[name]) > 0 && (CountEnabled(left) == 0 <==> On(s', name) == []) && On(s, name) != []
            && Represents(s', ids', if CountEnabled(left) == 0 then lists[name := left] - {name} else lists[name := left])
  {
    var left := WithoutOwner(lists[name], owner);
    var ids' := NotOwnedOn(ids, name, owner);
    var lists' := if left == [] then lists - {name} else lists[name := left];
    OwnerRemovedOn(s, ids, lists, name, owner, ids', lists');
    LeftOver(s, ids, lists, Without(s, OwnedOn(name, owner)), ids', lists', name, left);
  }

  lemma {:induction false} LeftOver(s: seq<Sub>, ids: map<nat, Where>, lists: map<Name, seq<Subscription>>,
                                    s': seq<Sub>, ids': map<nat, Where>, lists': map<Name, seq<Subscription>>, name: Name, left: seq<Subscription>)
    requires Represents(s, ids, lists) && name in lists && Represents(s', ids', lists')
    requires lists' == if left == [] then lists - {name} else lists[name := left]
    ensures CountEnabled(lists[name]) > 0 && On(s, name) != []
    ensures left == [] <==> On(s', name) == []
    ensures CountEnabled(left) == 0 <==> left == []
    ensures lists' == if left == [] then lists[name := left] - {name} else lists[name := left]
  {
    EmptyByCount(On(s, name), ids);
    EmptyByCount(On(s', name), ids');
    PresentIffListed(s, ids, lists, name);
    PresentIffListed(s', ids', lists', name);
    if left == [] {
      assert lists' == lists[name := left] - {name};
    }
  }

  // ---- renaming a channel ----

  /** The index after the first `n` moves. */
  ghost function Reindexed(base: map<nat, Where>, on: seq<Sub>, to: Name, remap: seq<Pair>, n: nat): map<nat, Where>
    requires n <= |on| && n <= |remap|
  {
    if n == 0 then base else Reindexed(base, on, to, remap, n - 1)[on[n - 1].id := Where(to, remap[n - 1].after, on[n - 1].owner)]
  }

  lemma {:induction false} RenameTrivial(s: seq<Sub>, ids: map<nat, Where>, lists: map<Name, seq<Subscription>>, from: Name, to: Name)
    requires Represents(s, ids, lists)
    ensures from !in lists || from == to ==> Renamed(s, from, to) == s
  {
    if from !in lists {
      NoneOn(s, ids, lists, from, OnChannel(from));
      assert s + Moved([], to) == s;
    }
  }

  lemma {:induction false} SnapshotOf(s: seq<Sub>, ids: map<nat, Where>)
    ensures |Snapshot(Concrete(s, ids), Pre)| == |s|
    ensures forall k | 0 <= k < |s| :: Snapshot(Concrete(s, ids), Pre)[k] == Listed(SubIdOf(ids, s[k].id), Normal, s[k].owner, s[k].handler)
  {
    if s != [] {
      SnapshotOf(s[1..], ids);
      assert Concrete(s, ids)[1..] == Concrete(s[1..], ids);
    }
  }

  lemma {:induction false} RenameStart(s: seq<Sub>, ids: map<nat, Where>, lists: map<Name, seq<Subscription>>, from: Name, to: Name)
    requires Represents(s, ids, lists) && from in lists && from != to
    ensures var on, s0 := On(s, from), Without(s, OnChannel(from));
            var ids0 := NotOn(ids, from);
            && |Snapshot(lists[from], Pre)| == |on| > 0
            && Represents(s0 + Moved(on[..0], to), Reindexed(ids0, on, to, [], 0), lists - {from})
  {
    var ids0 := NotOn(ids, from);
    SnapshotOf(On(s, from), ids);
    ChannelRemoved(s, ids, lists, from, ids0);
    assert Without(s, OnChannel(from)) + Moved(On(s, from)[..0], to) == Without(s, OnChannel(from));
  }

  lemma {:induction false} ReindexedPrefix(base: map<nat, Where>, on: seq<Sub>, to: Name, remap: seq<Pair>, p: Pair, n: nat)
    requires n <= |on| && n <= |remap|
    ensures Reindexed(base, on, to, remap + [p], n) == Reindexed(base, on, to, remap, n)
  {
    if n != 0 {
      ReindexedPrefix(base, on, to, remap, p, n - 1);
    }
  }

  lemma {:induction false} ReindexedAt(base: map<nat, Where>, on: seq<Sub>, to: Name, remap: seq<Pair>, n: nat)
    requires n <= |on| && n <= |remap| && DistinctKeys(on)
    ensures var r := Reindexed(base, on, to, remap, n);
            && (forall j | 0 <= j < n :: on[j].id in r && r[on[j].id] == Where(to, remap[j].after, on[j].owner))
            && (forall id | id in base && (forall j | 0 <= j < n :: on[j].id != id) :: id in r && r[id] == base[id])
            && (forall id | id in r :: id in base || exists j :: 0 <= j < n && on[j].id == id)
  {
    if n != 0 {
      ReindexedAt(base, on, to, remap, n - 1);
    }
  }

  /** The snapshot entry for the next move, whose id the index has already let go. */
  lemma {:induction false} NotYet(s: seq<Sub>, ids: map<nat, Where>, lists: map<Name, seq<Subscription>>, from: Name, to: Name, remap: seq<Pair>, k: nat)
    requires Represents(s, ids, lists) && from in lists && k < |On(s, from)| && k <= |remap|
    ensures var on := On(s, from);
            var ids0 := NotOn(ids, from);
            && on[k].id !in Reindexed(ids0, on, to, remap, k)
            && |Snapshot(lists[from], Pre)| == |on|
            && Snapshot(lists[from], Pre)[k] == Listed(SubIdOf(ids, on[k].id), Normal, on[k].owner, on[k].handler)
  {
    var on := On(s, from);
    var ids0 := NotOn(ids, from);
    DistinctKept(s, OnChannel(from), true);
    SnapshotOf(on, ids);
    ReindexedAt(ids0, on, to, remap, k);
    var i := KeptFrom(s, OnChannel(from), true, k);
  }

  lemma {:induction false} MovedNext(s0: seq<Sub>, on: seq<Sub>, to: Name, k: nat)
    requires k < |on|
    ensures s0 + Moved(on[..k], to) + [on[k].(channel := to)] == s0 + Moved(on[..k + 1], to)
  {
  }

  lemma {:induction false} RenameStep(s0: seq<Sub>, ids0: map<nat, Where>, on: seq<Sub>, to: Name, remap: seq<Pair>, k: nat,
                                      lists: map<Name, seq<Subscription>>, before: nat, newId: nat, lists': map<Name, seq<Subscription>>)
    requires k < |on| && |remap| == k
    requires Represents(s0 + Moved(on[..k], to), Reindexed(ids0, on, to, remap, k), lists)
    requires on[k].id !in Reindexed(ids0, on, to, remap, k)
    requires var base := ListOf(lists, to);
             lists' == lists[to := base][to := Place(base, Subscription(newId, Normal, Pre, on[k].owner, on[k].handler, true, 0))]
    ensures Represents(s0 + Moved(on[..k + 1], to), Reindexed(ids0, on, to, remap + [Pair(before, newId)], k + 1), lists')
    ensures to in lists' && lists' == lists'[to := ListOf(lists', to)]
  {
    hide Represents, Place, Moved;
    Appended(s0 + Moved(on[..k], to), Reindexed(ids0, on, to, remap, k), lists, on[k].(channel := to), newId, lists');
    ReindexedPrefix(ids0, on, to, remap, Pair(before, newId), k);
    MovedNext(s0, on, to, k);
  }

  function Retargeted(w: Where, from: Name, to: Name, remap: seq<Pair>): Where {
    if w.channel == from then Where(to, Lookup(remap, w.subId), w.owner) else w
  }

  /** An id of the renamed channel is found among those moved, and the remap table has its new place. */
  lemma {:induction false} FoundInRemap(s: seq<Sub>, ids: map<nat, Where>, from: Name, remap: seq<Pair>, id: nat) returns (k: nat)
    requires Indexed(s, ids) && |remap| == |On(s, from)| && DistinctIds(Concrete(On(s, from), ids))
    requires forall j | 0 <= j < |remap| :: remap[j].before == SubIdOf(ids, On(s, from)[j].id)
    requires id in ids && ids[id].channel == from
    ensures k < |remap| && On(s, from)[k].id == id && On(s, from)[k].owner == ids[id].owner
    ensures Lookup(remap, ids[id].subId) == remap[k].after
  {
    hide Keep, Lookup, Indexed;
    k := OnFrom(s, ids, from, id);
    var c := Concrete(On(s, from), ids);
    forall i, j | 0 <= i < j < |remap| ensures remap[i].before != remap[j].before {
      assert c[i].id != c[j].id;
    }
    hide Concrete;
    LookupAt(remap, k);
  }

  lemma {:induction false} AllFromMoved(s: seq<Sub>, ids: map<nat, Where>, from: Name)
    requires Indexed(s, ids)
    ensures DistinctKeys(On(s, from))
    ensures forall j | 0 <= j < |On(s, from)| :: On(s, from)[j].id in ids && ids[On(s, from)[j].id].channel == from
  {
    hide Keep;
    DistinctKept(s, OnChannel(from), true);
    forall j | 0 <= j < |On(s, from)| ensures On(s, from)[j].id in ids && ids[On(s, from)[j].id].channel == from {
      var i := KeptFrom(s, OnChannel(from), true, j);
    }
  }

  lemma {:induction false} RetargetedAt(s: seq<Sub>, ids: map<nat, Where>, from: Name, to: Name, remap: seq<Pair>, id: nat)
    requires Indexed(s, ids) && |remap| == |On(s, from)| && DistinctIds(Concrete(On(s, from), ids))
    requires forall j | 0 <= j < |remap| :: remap[j].before == SubIdOf(ids, On(s, from)[j].id)
    ensures var moved := Reindexed(NotOn(ids, from), On(s, from), to, remap, |remap|);
            if id in ids then id in moved && moved[id] == Retargeted(ids[id], from, to, remap) else id !in moved
  {
    hide Reindexed, On, Lookup, Indexed, Concrete, DistinctIds;
    var ids0 := NotOn(ids, from);
    AllFromMoved(s, ids, from);
    ReindexedAt(ids0, On(s, from), to, remap, |remap|);
    if id in ids && ids[id].channel == from {
      var k := FoundInRemap(s, ids, from, remap, id);
    }
  }

  /** Rewriting the index entry by entry gives the moves made one by one. */
  lemma {:induction false} RenameDone(s: seq<Sub>, ids: map<nat, Where>, lists: map<Name, seq<Subscription>>, from: Name, to: Name, remap: seq<Pair>)
    requires Represents(s, ids, lists) && from in lists && from != to && DistinctIds(lists[from])
    requires |remap| == |On(s, from)| == |Snapshot(lists[from], Pre)|
    requires forall j | 0 <= j < |remap| :: remap[j].before == Snapshot(lists[from], Pre)[j].id
    ensures var ids0 := NotOn(ids, from);
            var mapped := map id | id in ids :: Retargeted(ids[id], from, to, remap);
            mapped == Reindexed(ids0, On(s, from), to, remap, |remap|)
            && mapped == NotOn(mapped, from)
  {
    hide Represents, On, Concrete, Snapshot, Reindexed, Lookup, DistinctIds, Indexed;
    SnapshotIds(s, ids, lists, from);
    forall id: nat {
      RetargetedAt(s, ids, from, to, remap, id);
    }
  }

  lemma {:induction false} SnapshotIds(s: seq<Sub>, ids: map<nat, Where>, lists: map<Name, seq<Subscription>>, from: Name)
    requires Represents(s, ids, lists) && from in lists
    ensures Indexed(s, ids) && lists[from] == Concrete(On(s, from), ids) && |Snapshot(lists[from], Pre)| == |On(s, from)|
    ensures forall j | 0 <= j < |On(s, from)| :: Snapshot(lists[from], Pre)[j].id == SubIdOf(ids, On(s, from)[j].id)
  {
    hide Keep, Concrete, Snapshot;
    SnapshotOf(On(s, from), ids);
  }

  lemma {:induction false} OnFrom(s: seq<Sub>, ids: map<nat, Where>, from: Name, id: nat) returns (k: nat)
    requires Indexed(s, ids) && id in ids && ids[id].channel == from
    ensures k < |On(s, from)| && On(s, from)[k].id == id && On(s, from)[k].owner == ids[id].owner
  {
    var i :| 0 <= i < |s| && s[i].id == id;
    k := KeptAt(s, OnChannel(from), true, i);
  }

  // ---- an owner's removal, channel by channel ----

  ghost predicate Halfway(before: map<Name, seq<Subscription>>, lists: map<Name, seq<Subscription>>, todo: set<Name>, owner: Name) {
    && (forall name :: name in lists <==> name in before)
    && forall name | name in lists :: lists[name] == if name in todo then before[name] else WithoutOwner(before[name], owner)
  }

  /** `names` are the channels done so far that have nothing left. */
  ghost predicate Cleared(names: seq<Name>, before: map<Name, seq<Subscription>>, todo: set<Name>, owner: Name) {
    && (forall i, j | 0 <= i < j < |names| :: names[i] != names[j])
    && (forall i | 0 <= i < |names| :: names[i] in before && names[i] !in todo && WithoutOwner(before[names[i]], owner) == [])
    && (forall name | name in before && name !in todo && WithoutOwner(before[name], owner) == [] :: name in names)
  }

  ghost predicate DroppedSome(before: map<Name, seq<Subscription>>, lists: map<Name, seq<Subscription>>, names: seq<Name>, owner: Name, k: nat)
    requires k <= |names|
  {
    && (forall name :: name in lists <==> name in before && name !in names[..k])
    && forall name | name in lists :: lists[name] == WithoutOwner(before[name], owner)
  }

  lemma {:induction false} HalfwayStart(before: map<Name, seq<Subscription>>, todo: set<Name>, owner: Name)
    requires forall name | name in before :: name in todo
    ensures Halfway(before, before, todo, owner) && Cleared([], before, todo, owner)
  {
  }

  /** A channel has subscriptions, and those an owner's removal leaves are all counted. */
  lemma {:induction false} OwnerLeft(s: seq<Sub>, ids: map<nat, Where>, before: map<Name, seq<Subscription>>, owner: Name, name: Name)
    requires Represents(s, ids, before) && name in before
    ensures CountEnabled(before[name]) > 0 && CountEnabled(WithoutOwner(before[name], owner)) == |WithoutOwner(before[name], owner)|
  {
    hide Keep, Concrete, WithoutOwner, CountEnabled;
    var on := On(s, name);
    OwnerThins(on, OwnedBy(owner), owner, ids);
    AllEnabled(on, ids);
    AllEnabled(Without(on, OwnedBy(owner)), ids);
  }

  lemma {:induction false} HalfwayStep(s: seq<Sub>, ids: map<nat, Where>, before: map<Name, seq<Subscription>>,
                                       lists: map<Name, seq<Subscription>>, todo: set<Name>, owner: Name, name: Name)
    requires Represents(s, ids, before) && Halfway(before, lists, todo, owner) && name in todo && name in before
    ensures name in lists && lists[name] == before[name]
    ensures var left := WithoutOwner(lists[name], owner);
            && Halfway(before, lists[name := left], todo - {name}, owner)
            && (CountEnabled(lists[name]) > 0 && CountEnabled(left) == 0 <==> left == [])
  {
    hide Represents, WithoutOwner, CountEnabled;
    OwnerLeft(s, ids, before, owner, name);
  }

  lemma {:induction false} ClearedStep(names: seq<Name>, before: map<Name, seq<Subscription>>, todo: set<Name>, owner: Name, name: Name)
    requires Cleared(names, before, todo, owner) && name in todo && name in before
    ensures Cleared(if WithoutOwner(before[name], owner) == [] then names + [name] else names, before, todo - {name}, owner)
  {
    hide WithoutOwner;
    var next := if WithoutOwner(before[name], owner) == [] then names + [name] else names;
    forall other | other in before && other !in todo - {name} && WithoutOwner(before[other], owner) == [] ensures other in next {
      if other == name {
        assert next[|names|] == name;
      } else {
        assert other in names;
      }
    }
  }

  lemma {:induction false} DroppedStart(before: map<Name, seq<Subscription>>, lists: map<Name, seq<Subscription>>, names: seq<Name>, owner: Name)
    requires Halfway(before, lists, {}, owner)
    ensures DroppedSome(before, lists, names, owner, 0)
  {
  }

  lemma {:induction false} DroppedStep(before: map<Name, seq<Subscription>>, lists: map<Name, seq<Subscription>>, names: seq<Name>, owner: Name, k: nat)
    requires Cleared(names, before, {}, owner) && k < |names| && DroppedSome(before, lists, names, owner, k)
    ensures names[k] in lists && DroppedSome(before, lists - {names[k]}, names, owner, k + 1)
  {
  }

  lemma {:induction false} DroppedLists(before: map<Name, seq<Subscription>>, lists: map<Name, seq<Subscription>>, names: seq<Name>, owner: Name)
    requires Cleared(names, before, {}, owner) && DroppedSome(before, lists, names, owner, |names|)
    ensures lists == map name | name in before && WithoutOwner(before[name], owner) != [] :: WithoutOwner(before[name], owner)
  {
    assert names[..|names|] == names;
  }

  lemma {:induction false} DroppedAll(s: seq<Sub>, ids: map<nat, Where>, before: map<Name, seq<Subscription>>, lists: map<Name, seq<Subscription>>,
                                      names: seq<Name>, owner: Name, ids': map<nat, Where>)
    requires Represents(s, ids, before) && Cleared(names, before, {}, owner) && DroppedSome(before, lists, names, owner, |names|)
    requires ids' == NotOwnedBy(ids, owner)
    ensures Represents(Without(s, OwnedBy(owner)), ids', lists) && Emptied(names, s, Without(s, OwnedBy(owner)))
  {
    hide Represents, WithoutOwner, Cleared, DroppedSome, Emptied, Without;
    DroppedLists(before, lists, names, owner);
    OwnerRemoved(s, ids, before, owner, ids', lists);
    ClearedEmptied(s, ids, before, Without(s, OwnedBy(owner)), ids', lists, names, owner);
  }

  lemma {:induction false} ClearedEmptied(s: seq<Sub>, ids: map<nat, Where>, before: map<Name, seq<Subscription>>,
                                          s': seq<Sub>, ids': map<nat, Where>, lists: map<Name, seq<Subscription>>, names: seq<Name>, owner: Name)
    requires Represents(s, ids, before) && Represents(s', ids', lists) && Cleared(names, before, {}, owner)
    requires forall name :: name in lists <==> name in before && WithoutOwner(before[name], owner) != []
    ensures Emptied(names, s, s')
  {
  }

  class Channels {
    var byName: map<Name, Descriptor>
    var ids: map<nat, Where>
    var version: nat
    /** The live subscriptions in registration order. */
    ghost var flat: seq<Sub>
    /** What the descriptors list. */
    ghost var lists: map<Name, seq<Subscription>>
    ghost var owned: set<Descriptor>

    /** Each descriptor is in order, lists what `lists` says, and carries its channel's name, so that no two
        channels share one. */
    ghost predicate Fits(name: Name)
      requires name in byName && name in lists
      reads this`byName, this`lists, this`owned, owned
    {
      && byName[name] in owned && byName[name].name == name
      && byName[name].subs == lists[name] && WellKept(lists[name], byName[name].nextId, byName[name].enabledCount)
    }

    ghost predicate Sound()
      reads this`byName, this`lists, this`owned, owned
    {
      forall name :: (name in lists <==> name in byName) && (name in byName ==> Fits(name))
    }

    ghost predicate Valid()
      reads this, owned
    {
      Sound() && Represents(flat, ids, lists)
    }

    constructor (versions: Versions)
      modifies versions
      ensures Valid() && flat == [] && owned == {}
      ensures version == versions.last == old(versions.last) + 1
    {
      byName, ids, flat, lists, owned := map[], map[], [], map[], {};
      new;
      version := versions.Next();
    }

    /** Every subscription of a store is enabled, so a channel's count is its length. */
    lemma {:induction false} CountIsLength(name: Name)
      requires Valid()
      ensures if name in byName then byName[name] in owned && byName[name].enabledCount == |On(flat, name)| > 0 else On(flat, name) == []
    {
      AllEnabled(On(flat, name), ids);
      assert name in lists <==> name in byName;
    }

    /** The channel's descriptor, made when there is none. */
    method Entry(versions: Versions, name: Name) returns (desc: Descriptor)
      requires Sound()
      modifies this`byName, this`owned, this`lists, versions
      ensures Sound() && old(owned) <= owned && fresh(owned - old(owned)) && versions.last >= old(versions.last)
      ensures name in byName && byName[name] == desc && desc in owned
      ensures lists == old(lists)[name := ListOf(old(lists), name)]
      ensures if name in old(byName) then desc == old(byName)[name] else fresh(desc) && desc.enabledCount == 0
    {
      hide WellKept;
      if name !in byName {
        desc := new Descriptor(versions, name);
        byName := byName[name := desc];
        lists := lists[name := []];
        owned := owned + {desc};
      } else {
        desc := byName[name];
      }
    }

    /** `desc.subscribe`, seen from the store. */
    method Enlist(versions: Versions, name: Name, priority: Priority, owner: Name, handler: Handler) returns (subId: nat)
      requires Sound() && name in byName && name in lists
      modifies this`lists, byName[name], versions
      ensures Sound() && versions.last > old(versions.last)
      ensures lists == old(lists)[name := Place(old(lists)[name], Subscription(subId, priority, Pre, owner, handler, true, 0))]
      ensures subId == old(byName[name].nextId) && byName[name].nextId == subId + 1
    {
      hide WellKept, Place;
      var desc := byName[name];
      var id, _ := desc.Subscribe(versions, priority, Pre, owner, handler);
      subId := id;
      lists := lists[name := desc.subs];
    }

    /** True for the first subscriber of a channel. The descriptors and the index go on representing a list of subscriptions
        exactly when the id was not live. */
    method Subscribe(versions: Versions, name: Name, id: nat, owner: Name, handler: Handler) returns (first: bool)
      requires Valid() && version <= versions.last
      modifies this, versions, owned
      ensures Sound() && fresh(owned - old(owned))
      ensures flat == old(flat) + [Sub(name, id, owner, handler)]
      ensures id in ids && ids == old(ids)[id := Where(name, ids[id].subId, owner)]
      ensures lists == old(lists)[name := ListOf(old(lists), name) + [Subscription(ids[id].subId, Normal, Pre, owner, handler, true, 0)]]
      ensures id !in old(ids) ==> Valid()
      ensures id in old(ids) ==> forall s :: !Represents(s, ids, lists)
      ensures first <==> On(old(flat), name) == []
      ensures old(versions.last) < version <= versions.last
    {
      hide Represents, On, Place, WellKept, ListOf, Fits, Sound, Issued;
      CountIsLength(name);
      DescriptorsDistinct();
      ghost var before, index := lists, ids;
      version := versions.Next();
      var desc := Entry(versions, name);
      first := desc.enabledCount == 0;
      Numbered(name);
      var subId := Enlist(versions, name, Normal, owner, handler);
      ghost var e := Sub(name, id, owner, handler);
      LastPlaced(flat, index, before, e, subId, lists);
      if id !in ids {
        Appended(flat, ids, before, e, subId, lists);
      } else {
        ghost var reindexed := index[id := Where(name, subId, owner)];
        forall s ensures !Represents(s, reindexed, lists) {
          ReusedIdLost(flat, index, before, e, subId, s);
        }
      }
      Record(ids[id := Where(name, subId, owner)], flat + [e]);
    }

    /** The index and the list follow what was done to the descriptors. */
    method Record(index: map<nat, Where>, ghost list: seq<Sub>)
      requires Sound()
      modifies this`ids, this`flat
      ensures Sound() && ids == index && flat == list
    {
      hide Sound;
      ids, flat := index, list;
    }

    lemma {:induction false} DescriptorsDistinct()
      requires Sound()
      ensures forall name | name in lists :: DistinctIds(lists[name])
    {
      forall name | name in lists ensures DistinctIds(lists[name]) {
        Counted(name);
      }
    }

    lemma {:induction false} Numbered(name: Name)
      requires Sound() && name in byName && name in lists
      ensures forall i | 0 <= i < |lists[name]| :: lists[name][i].id != byName[name].nextId
    {
      hide CountEnabled, Ordered;
    }

    /** `by_name.remove`. */
    method Forget(name: Name)
      requires Sound() && name in byName
      modifies this`byName, this`lists
      ensures Sound() && byName == old(byName) - {name} && lists == old(lists) - {name}
    {
      byName := byName - {name};
      lists := lists - {name};
    }

    /** `desc.remove_by_owner`, seen from the store; true when it emptied the channel. */
    method RemoveOwnerFrom(versions: Versions, name: Name, owner: Name) returns (emptied: bool)
      requires Sound() && name in byName && name in lists
      modifies this`lists, byName[name], versions
      ensures Sound() && versions.last > old(versions.last)
      ensures lists == old(lists)[name := WithoutOwner(old(lists)[name], owner)]
      ensures emptied <==> CountEnabled(old(lists)[name]) > 0 && CountEnabled(lists[name]) == 0
    {
      hide WellKept, WithoutOwner, CountEnabled, DistinctIds;
      Counted(name);
      var desc := byName[name];
      var before := desc.enabledCount;
      var _ := desc.RemoveByOwner(versions, owner);
      emptied := before > 0 && desc.enabledCount == 0;
      lists := lists[name := desc.subs];
      Counted(name);
    }

    lemma {:induction false} Owns(name: Name)
      requires Sound() && name in byName
      ensures name in lists && byName[name] in owned && byName[name].subs == lists[name]
    {
    }

    lemma {:induction false} AllListed()
      requires Sound()
      ensures forall name :: name in lists <==> name in byName
    {
    }

    lemma {:induction false} Counted(name: Name)
      requires Sound() && name in byName && name in lists
      ensures byName[name].enabledCount == CountEnabled(lists[name]) && DistinctIds(lists[name])
    {
    }

    method UnsubscribeFrom(versions: Versions, name: Name, subId: nat) returns (emptied: bool)
      requires Sound() && name in byName && name in lists
      modifies this`lists, byName[name], versions
      ensures Sound() && versions.last > old(versions.last)
      ensures lists == old(lists)[name := WithoutId(old(lists)[name], subId)]
      ensures emptied <==> CountEnabled(old(lists)[name]) > 0 && CountEnabled(lists[name]) == 0
    {
      hide WellKept, WithoutId, CountEnabled, DistinctIds;
      Counted(name);
      var desc := byName[name];
      var before := desc.enabledCount;
      var _ := desc.Unsubscribe(versions, subId);
      emptied := before > 0 && desc.enabledCount == 0;
      lists := lists[name := desc.subs];
      Counted(name);
    }

    /** The channels that had subscribers and no longer do, in no particular order. */
    method RemoveByOwner(versions: Versions, owner: Name) returns (emptied: seq<Name>)
      requires Valid() && version <= versions.last
      modifies this, versions, owned
      ensures Valid() && owned == old(owned)
      ensures flat == Without(old(flat), OwnedBy(owner))
      ensures Emptied(emptied, old(flat), flat)
      ensures old(versions.last) < version <= versions.last
    {
      hide Represents, Without, Emptied, Halfway, Cleared, DroppedSome, Sound, NotOwnedBy;
      ghost var before := lists;
      version := versions.Next();
      emptied := ClearOwner(versions, owner);
      ids := NotOwnedBy(ids, owner);
      ForgetAll(emptied, before, owner);
      DroppedAll(flat, old(ids), before, lists, emptied, owner, ids);
      flat := Without(flat, OwnedBy(owner));
    }

    /** The owner's subscriptions go, channel by channel; returns the channels that are empty now. */
    method ClearOwner(versions: Versions, owner: Name) returns (emptied: seq<Name>)
      requires Sound() && Represents(flat, ids, lists)
      modifies this`lists, owned, versions
      ensures Sound() && versions.last >= old(versions.last)
      ensures Halfway(old(lists), lists, {}, owner) && Cleared(emptied, old(lists), {}, owner)
    {
      hide Represents, WithoutOwner, WellKept, Fits, CountEnabled, Halfway, Cleared, Sound;
      ghost var before := lists;
      emptied := [];
      var todo := byName.Keys;
      AllListed();
      HalfwayStart(before, todo, owner);
      while todo != {}
        invariant Sound() && todo <= byName.Keys && versions.last >= old(versions.last)
        invariant Halfway(before, lists, todo, owner) && Cleared(emptied, before, todo, owner)
        decreases todo
      {
        var name :| name in todo;
        Owns(name);
        HalfwayStep(flat, ids, before, lists, todo, owner, name);
        ClearedStep(emptied, before, todo, owner, name);
        var became := RemoveOwnerFrom(versions, name, owner);
        if became {
          emptied := emptied + [name];
        }
        todo := todo - {name};
      }
    }

    method ForgetAll(names: seq<Name>, ghost before: map<Name, seq<Subscription>>, ghost owner: Name)
      requires Sound() && Halfway(before, lists, {}, owner) && Cleared(names, before, {}, owner)
      modifies this`byName, this`lists
      ensures Sound() && DroppedSome(before, lists, names, owner, |names|)
    {
      hide Halfway, Cleared, DroppedSome, Sound;
      DroppedStart(before, lists, names, owner);
      for k := 0 to |names|
        invariant Sound() && DroppedSome(before, lists, names, owner, k)
      {
        DroppedStep(before, lists, names, owner, k);
        AllListed();
        Forget(names[k]);
      }
    }

    /** One live id; the channel it was on, and whether that left the channel empty. */
    method RemoveOne(versions: Versions, id: nat) returns (name: Name, emptied: bool)
      requires Valid() && id in ids && version <= versions.last
      modifies this`ids, this`flat, this`lists, this`byName, owned, versions
      ensures Valid() && versions.last >= old(versions.last)
      ensures flat == Without(old(flat), WithId(id)) && ids == old(ids) - {id}
      ensures emptied <==> On(old(flat), name) != [] && On(flat, name) == []
      ensures forall other | other != name :: On(flat, other) == On(old(flat), other)
    {
      hide Represents, Keep, On, WithoutId, WellKept, Fits, CountEnabled, Sound;
      ghost var before := lists;
      var at := ids[id];
      name := at.channel;
      IndexedThere(flat, ids, before, id);
      AllListed();
      Owns(name);
      Counted(name);
      OneIdRemoved(flat, ids, before, id);
      emptied := UnsubscribeFrom(versions, name, at.subId);
      if emptied {
        AllListed();
        Forget(name);
      }
      ids := ids - {id};
      flat := Without(flat, WithId(id));
    }

    /** The channels left without a subscriber, in the order they emptied. */
    method RemoveByIds(versions: Versions, gone: seq<nat>) returns (emptied: seq<Name>)
      requires Valid() && version <= versions.last
      modifies this, versions, owned
      ensures Valid() && owned == old(owned)
      ensures flat == Without(old(flat), WithAnyId(gone))
      ensures Emptied(emptied, old(flat), flat)
      ensures old(versions.last) < version <= versions.last
    {
      hide Represents, Keep, Emptied, Sound;
      version := versions.Next();
      emptied := [];
      NothingYet(flat);
      for k := 0 to |gone|
        invariant Valid() && owned == old(owned)
        invariant flat == Without(old(flat), WithAnyId(gone[..k])) && Emptied(emptied, old(flat), flat)
        invariant old(versions.last) < version <= versions.last
      {
        WithoutNext(old(flat), gone, k);
        if gone[k] in ids {
          ghost var middle := flat;
          var name, became := RemoveOne(versions, gone[k]);
          OnlyFewer(old(flat), WithAnyId(gone[..k]), name);
          OnlyFewer(middle, WithId(gone[k]), name);
          EmptiedNext(emptied, old(flat), middle, flat, name);
          if became {
            emptied := emptied + [name];
          }
        } else {
          AbsentId(flat, ids, lists, gone[k]);
        }
      }
      assert gone[..|gone|] == gone;
    }

    /** True when the channel had subscribers and now has none. */
    method RemoveByOwnerOn(versions: Versions, name: Name, owner: Name) returns (emptied: bool)
      requires Valid() && version <= versions.last
      modifies this, versions, owned
      ensures Valid() && owned == old(owned)
      ensures flat == Without(old(flat), OwnedOn(name, owner))
      ensures emptied <==> On(old(flat), name) != [] && On(flat, name) == []
      ensures old(versions.last) < version <= versions.last
    {
      hide Represents, Without, On, WithoutOwner, CountEnabled, Sound, NotOwnedOn;
      version := versions.Next();
      AllListed();
      if name !in byName {
        NoneOn(flat, ids, lists, name, OwnedOn(name, owner));
        return false;
      }
      ghost var before := lists;
      Owns(name);
      OneOwnerRemoved(flat, ids, before, name, owner);
      emptied := RemoveOwnerFrom(versions, name, owner);
      if emptied {
        AllListed();
        Forget(name);
      }
      Record(NotOwnedOn(ids, name, owner), Without(flat, OwnedOn(name, owner)));
    }

    method RemoveByName(versions: Versions, name: Name)
      requires Valid() && version <= versions.last
      modifies this, versions, owned
      ensures Valid() && owned == old(owned)
      ensures flat == Without(old(flat), OnChannel(name))
      ensures old(versions.last) < version <= versions.last
    {
      hide Represents, Without, Sound, NotOn;
      version := versions.Next();
      ChannelRemoved(flat, ids, lists, name, NotOn(ids, name));
      AllListed();
      if name in byName {
        Forget(name);
      } else {
        assert lists - {name} == lists;
      }
      Record(NotOn(ids, name), Without(flat, OnChannel(name)));
    }

    /** Subscribes a snapshot of `from` to `to`, one by one, noting each old and new descriptor id. */
    method MoveAll(versions: Versions, to: Name, snapshot: seq<Listed>, ghost s: seq<Sub>, ghost index: map<nat, Where>,
                   ghost before: map<Name, seq<Subscription>>, ghost from: Name) returns (remap: seq<Pair>)
      requires Sound() && to in byName && to in lists && from != to
      requires Represents(s, index, before) && from in before && snapshot == Snapshot(before[from], Pre)
      requires |snapshot| == |On(s, from)| > 0
      requires lists == (before - {from})[to := ListOf(before - {from}, to)]
      modifies this`lists, byName[to], versions
      ensures Sound() && versions.last >= old(versions.last)
      ensures |remap| == |snapshot| && forall j | 0 <= j < |remap| :: remap[j].before == snapshot[j].id
      ensures Represents(Renamed(s, from, to), Reindexed(NotOn(index, from), On(s, from), to, remap, |remap|), lists)
    {
      hide Represents, Without, On, Place, Sound, Reindexed, ListOf, Snapshot, Moved, NotOn;
      ghost var on, s0 := On(s, from), Without(s, OnChannel(from));
      ghost var ids0 := NotOn(index, from);
      RenameStart(s, index, before, from, to);
      remap := [];
      ghost var rep := before - {from};
      for k := 0 to |snapshot|
        invariant Sound() && to in lists && |remap| == k
        invariant versions.last >= old(versions.last)
        invariant forall j | 0 <= j < k :: remap[j].before == snapshot[j].id
        invariant Represents(s0 + Moved(on[..k], to), Reindexed(ids0, on, to, remap, k), rep)
        invariant lists == rep[to := ListOf(rep, to)]
        invariant k > 0 ==> rep == lists
      {
        NotYet(s, index, before, from, to, remap, k);
        var newId := Enlist(versions, to, snapshot[k].priority, snapshot[k].owner, snapshot[k].handler);
        RenameStep(s0, ids0, on, to, remap, k, rep, snapshot[k].id, newId, lists);
        remap := remap + [Pair(snapshot[k].id, newId)];
        rep := lists;
      }
      assert on[..|snapshot|] == on;
    }

    /** Points every id of `from` at its new descriptor entry. */
    method Reindex(from: Name, to: Name, remap: seq<Pair>, ghost before: map<Name, seq<Subscription>>)
      requires Represents(flat, ids, before) && from in before && from != to && DistinctIds(before[from])
      requires |remap| == |On(flat, from)| == |Snapshot(before[from], Pre)|
      requires forall j | 0 <= j < |remap| :: remap[j].before == Snapshot(before[from], Pre)[j].id
      modifies this`ids
      ensures ids == Reindexed(NotOn(old(ids), from), On(flat, from), to, remap, |remap|)
    {
      RenameDone(flat, ids, before, from, to, remap);
      ids := map id | id in ids :: Retargeted(ids[id], from, to, remap);
      ids := NotOn(ids, from);
    }

    /** The index and the list follow the descriptors. */
    method Repoint(from: Name, to: Name, remap: seq<Pair>, ghost before: map<Name, seq<Subscription>>)
      requires Sound() && Represents(flat, ids, before) && from in before && from != to && DistinctIds(before[from])
      requires |remap| == |On(flat, from)| == |Snapshot(before[from], Pre)|
      requires forall j | 0 <= j < |remap| :: remap[j].before == Snapshot(before[from], Pre)[j].id
      requires Represents(Renamed(flat, from, to), Reindexed(NotOn(ids, from), On(flat, from), to, remap, |remap|), lists)
      modifies this`ids, this`flat
      ensures Valid() && flat == Renamed(old(flat), from, to)
    {
      hide Represents, On, Renamed, Sound, Reindexed, Snapshot, DistinctIds, NotOn;
      Reindex(from, to, remap, before);
      flat := Renamed(flat, from, to);
    }

    method Transfer(versions: Versions, from: Name, to: Name)
      requires Valid() && from in byName && from != to
      modifies this`byName, this`ids, this`flat, this`lists, this`owned, versions, owned
      ensures Valid() && fresh(owned - old(owned)) && versions.last >= old(versions.last)
      ensures flat == Renamed(old(flat), from, to)
    {
      hide Represents, On, Renamed, Sound, Reindexed, ListOf, Snapshot, Retargeted, DistinctIds, Without, NotOn, CountEnabled;
      var src := byName[from];
      Owns(from);
      Counted(from);
      RenameStart(flat, ids, lists, from, to);
      var snapshot := Snapshot(src.subs, Pre);
      Forget(from);
      var _ := Entry(versions, to);
      AllListed();
      var remap := MoveAll(versions, to, snapshot, flat, ids, old(lists), from);
      Repoint(from, to, remap, old(lists));
    }

    /** Every subscription of `from` is appended to `to`, and its id still finds it. */
    method Rename(versions: Versions, from: Name, to: Name)
      requires Valid() && version <= versions.last
      modifies this, versions, owned
      ensures Valid() && fresh(owned - old(owned))
      ensures flat == Renamed(old(flat), from, to)
      ensures old(versions.last) < version <= versions.last
    {
      hide Represents, Keep, Renamed, Sound;
      version := versions.Next();
      RenameTrivial(flat, ids, lists, from, to);
      AllListed();
      if from == to {
        return;
      }
      if from !in byName {
        return;
      }
      Transfer(versions, from, to);
    }

    /** The subscribers of a channel in dispatch order. */
    method SnapshotOn(name: Name) returns (rows: seq<Row>)
      requires Valid()
      ensures rows == RowsOf(On(flat, name))
    {
      AllListed();
      PresentIffListed(flat, ids, lists, name);
      if name !in byName {
        return [];
      }
      Owns(name);
      var listed := Snapshot(byName[name].subs, Pre);
      SnapshotOf(On(flat, name), ids);
      rows := [];
      for k := 0 to |listed|
        invariant |rows| == k && forall j | 0 <= j < k :: rows[j] == Row(listed[j].owner, listed[j].handler)
      {
        rows := rows + [Row(listed[k].owner, listed[k].handler)];
      }
    }

    method HasSubscribers(name: Name) returns (any: bool)
      requires Valid()
      ensures any <==> On(flat, name) != []
    {
      CountIsLength(name);
      any := name in byName && byName[name].enabledCount > 0;
    }

    method IsEmpty() returns (empty: bool)
      requires Valid()
      ensures empty <==> flat == []
    {
      empty := forall name | name in byName :: byName[name].enabledCount == 0;
      forall name | name in byName ensures byName[name].enabledCount > 0 {
        CountIsLength(name);
      }
      AllListed();
      if flat != [] {
        var k := KeptAt(flat, OnChannel(flat[0].channel), true, 0);
        PresentIffListed(flat, ids, lists, flat[0].channel);
        assert flat[0].channel in byName;
      } else {
        forall name ensures name !in byName {
          PresentIffListed(flat, ids, lists, name);
        }
      }
    }
  }
}
