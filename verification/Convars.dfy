/** Console-variable queries on the real store: the pending table beside one subscription per query. */
module Convars {
  import OrderedMap
  import U = Utf8
  import opened Multiplexer
  import opened ChannelSpec
  import opened ChannelStore
  import opened ConvarSpec
  import opened Options
  import E = EntitySpec
  import EntityLive

  const SLOTS: int := 64
  const MAX_PENDING: nat := 1024
  const MAX_NAME: nat := 255
  const TIMEOUT: nat := 15000

  function Lower(c: char): char {
    if 'A' <= c <= 'Z' then c + 32 as char else c
  }

  /** `eq_ignore_ascii_case`. */
  predicate SameName(a: string, b: string) {
    |a| == |b| && forall i | 0 <= i < |a| :: Lower(a[i]) == Lower(b[i])
  }

  predicate Whitespace(c: char) {
    c == ' ' || c == '\t' || c == '\n' || c == '\r' || c == 12 as char
  }

  /** The length as the engine is given it, in UTF-8. */
  function ByteLength(name: string): nat {
    if name == "" then 0 else |U.Encode(name[0] as int)| + ByteLength(name[1..])
  }

  predicate GoodName(name: string) {
    name != "" && ByteLength(name) <= MAX_NAME && forall i | 0 <= i < |name| :: !Whitespace(name[i])
  }

  /** A C string cannot hold a NUL. */
  predicate NoNul(name: string) {
    forall i | 0 <= i < |name| :: name[i] != 0 as char
  }

  /** What the client at a slot answers with: the query it names must be pending, unanswered, on that slot and of that name. */
  predicate Answers(q: Query, slot: int, name: string) {
    q.outcome.None? && q.slot == slot && SameName(q.name, name)
  }

  class ConvarDesk {
    const store: Channels
    const versions: Versions
    const connections: EntityLive.LiveTable
    var pending: map<nat, Query>
    ghost var log: seq<Delivery>

    ghost predicate Valid()
      reads this`pending, versions`last, store, store.owned
    {
      store.Valid() && store.version <= versions.last && Paired(pending, store.flat)
    }

    ghost function Desk(): Desk
      reads this`pending, this`log
    {
      ConvarSpec.Desk(pending, log)
    }

    predicate Matches(slot: int, token: nat)
      reads connections
    {
      Holds(connections.entries, slot, token)
    }

    constructor (versions: Versions, connections: EntityLive.LiveTable)
      modifies versions
      ensures Valid() && pending == map[] && log == [] && this.versions == versions && this.connections == connections
      ensures fresh(store) && fresh(store.owned)
    {
      this.versions, this.connections := versions, connections;
      pending, log := map[], [];
      store := new Channels(versions);
    }

    /** Runs the query's callback, passes over it when its owner is no longer live, or records the outcome when the isolate
        is busy. */
    method Settle(cookie: nat, outcome: Outcome, reach: Reach)
      requires Valid() && cookie in pending
      modifies this`pending, this`log, versions, store, store.owned
      ensures Valid() && store.owned == old(store.owned)
      ensures Desk() == Settled(old(Desk()), cookie, outcome, reach)
    {
      hide Represents, Channels.Sound, Keep, Emptied, Paired;
      if reach.Busy? {
        Recorded(pending, store.flat, cookie, outcome);
        pending := pending[cookie := pending[cookie].(outcome := Some(outcome))];
        return;
      }
      if reach.Runs? {
        log := log + [Delivery(cookie, outcome)];
      }
      var q := pending[cookie];
      Gone(pending, store.flat, cookie);
      pending := pending - {cookie};
      var _ := store.RemoveByIds(versions, [q.subId]);
    }

    /** The open queries of a slot. */
    function OpenOn(slot: int): map<nat, Outcome>
      reads this`pending
    {
      Open(pending, slot)
    }

    function DueAt(now: int): map<nat, Outcome>
      reads this`pending, connections
    {
      Due(pending, connections.entries, now)
    }

    /** Resolves every open query of a slot with null. */
    method CancelSlot(slot: int, reach: nat -> Reach)
      requires Valid()
      modifies this`pending, this`log, versions, store, store.owned
      ensures Valid() && store.owned == old(store.owned)
      ensures Settles(old(Desk()), Desk(), old(OpenOn(slot)), reach)
    {
      SettleAll(OpenOn(slot), reach);
    }

    /** Settles a collected batch. */
    method SettleAll(due: map<nat, Outcome>, reach: nat -> Reach)
      requires Valid() && due.Keys <= pending.Keys
      modifies this`pending, this`log, versions, store, store.owned
      ensures Valid() && store.owned == old(store.owned)
      ensures Settles(old(Desk()), Desk(), due, reach)
    {
      hide Represents, Channels.Sound, Settles, Paired;
      var todo := due.Keys;
      ghost var done: map<nat, Outcome> := map[];
      SettlesNone(Desk(), reach);
      while todo != {}
        invariant Valid() && store.owned == old(store.owned)
        invariant todo <= due.Keys && done == map c | c in due && c !in todo :: due[c]
        invariant Settles(old(Desk()), Desk(), done, reach)
        decreases todo
      {
        OrderedMap.EmptyOrInhabited(todo);
        var c :| c in todo;
        StillPending(old(Desk()), Desk(), done, reach, c);
        SettlesNext(old(Desk()), Desk(), done, reach, c, due[c]);
        Settle(c, due[c], reach(c));
        done := done[c := due[c]];
        todo := todo - {c};
      }
      assert done == due;
    }

    /** Every frame, before any JavaScript runs. */
    method Sweep(now: int, reach: nat -> Reach)
      requires Valid()
      modifies this`pending, this`log, versions, store, store.owned
      ensures Valid() && store.owned == old(store.owned)
      ensures Settles(old(Desk()), Desk(), old(DueAt(now)), reach) && Faithful(old(pending), old(DueAt(now)))
    {
      SettleAll(DueAt(now), reach);
    }

    /** A client's answer. It reaches only the query its cookie names, and is believed only from the connection asked. */
    method DispatchResponse(slot: int, cookie: nat, status: int, name: string, value: string, reach: Reach) returns (ghost due: map<nat, Outcome>)
      requires Valid()
      modifies this`pending, this`log, versions, store, store.owned
      ensures Valid() && store.owned == old(store.owned)
      ensures due == if cookie in old(pending) && Answers(old(pending)[cookie], slot, name)
                     then map[cookie := if Matches(slot, old(pending)[cookie].token) then Answered(status, value) else Cancelled]
                     else map[]
      ensures Settles(old(Desk()), Desk(), due, Everywhere(reach))
    {
      hide Represents, Channels.Sound, Settles, Paired, SameName;
      due := map[];
      SettlesNone(Desk(), Everywhere(reach));
      if cookie !in pending || !Answers(pending[cookie], slot, name) {
        return;
      }
      var outcome := if Matches(slot, pending[cookie].token) then Answered(status, value) else Cancelled;
      SettlesNext(Desk(), Desk(), map[], Everywhere(reach), cookie, outcome);
      Settle(cookie, outcome, reach);
      due := map[cookie := outcome];
    }

    /** A new query. `cookie` is one no pending query has; `sent` and `listening` say whether the engine took the request
        and the callback could be subscribed. */
    method QueryConvar(slot: int, name: string, token: nat, owner: Name, handler: Handler, now: int,
                       cookie: nat, subId: nat, sent: bool, listening: bool) returns (answer: nat)
      requires Valid() && cookie != 0 && cookie !in pending && subId !in store.ids
      modifies this`pending, versions, store, store.owned
      ensures Valid() && fresh(store.owned - old(store.owned))
      ensures answer != 0 <==> 0 <= slot < SLOTS && GoodName(name) && Matches(slot, token) && |old(pending)| < MAX_PENDING && NoNul(name) && sent && listening
      ensures answer != 0 ==> answer == cookie && pending == old(pending)[cookie := Query(slot, token, name, owner, subId, now + TIMEOUT, None)]
      ensures answer == 0 ==> pending == old(pending)
      ensures |pending| <= MAX_PENDING || |pending| <= |old(pending)|
    {
      hide Represents, Channels.Sound, Paired, KeyOf;
      if slot < 0 || slot >= SLOTS {
        return 0;
      }
      if !GoodName(name) {
        return 0;
      }
      if !Matches(slot, token) {
        return 0;
      }
      if |pending| >= MAX_PENDING {
        return 0;
      }
      if !NoNul(name) {
        return 0;
      }
      if !sent {
        return 0;
      }
      if !listening {
        return 0;
      }
      NotOnFlat(store, subId);
      var q := Query(slot, token, name, owner, subId, now + TIMEOUT, None);
      PairedAdd(pending, store.flat, cookie, q, handler);
      var _ := store.Subscribe(versions, KeyOf(cookie), subId, owner, handler);
      pending := pending[cookie := q];
      answer := cookie;
    }

    /** The owner unloads: its queries and their subscriptions go, unanswered. */
    method TeardownOwner(owner: Name)
      requires Valid()
      modifies this`pending, versions, store, store.owned
      ensures Valid() && store.owned == old(store.owned)
      ensures pending == map c | c in old(pending) && old(pending)[c].owner != owner :: old(pending)[c]
    {
      hide Represents, Channels.Sound, Keep, Emptied, Paired;
      OwnerGone(pending, store.flat, owner);
      var _ := store.RemoveByOwner(versions, owner);
      pending := map c | c in pending && pending[c].owner != owner :: pending[c];
    }

    /** A scope is disposed of: the queries with these subscription ids go. */
    method Dispose(gone: seq<nat>)
      requires Valid()
      modifies this`pending, versions, store, store.owned
      ensures Valid() && store.owned == old(store.owned)
      ensures pending == map c | c in old(pending) && old(pending)[c].subId !in gone :: old(pending)[c]
    {
      hide Represents, Channels.Sound, Keep, Emptied, Paired;
      IdsGone(pending, store.flat, gone);
      var _ := store.RemoveByIds(versions, gone);
      pending := map c | c in pending && pending[c].subId !in gone :: pending[c];
    }

    // ---- connections ----

    function Generation(slot: int): nat
      reads connections
    {
      if slot in connections.entries then connections.entries[slot].id else 0
    }

    /** Ends a connection if it is the one the token names, and resolves its queries. */
    method End(slot: int, token: nat, reach: nat -> Reach)
      requires Valid() && connections.nextId >= 1
      modifies this`pending, this`log, versions, store, store.owned, connections
      ensures Valid() && store.owned == old(store.owned) && connections.nextId == old(connections.nextId)
      ensures old(Matches(slot, token)) ==> connections.entries == old(connections.entries) - {slot}
      ensures !old(Matches(slot, token)) ==> connections.entries == old(connections.entries) && Desk() == old(Desk())
      ensures old(Matches(slot, token)) ==> Settles(old(Desk()), Desk(), old(OpenOn(slot)), reach)
    {
      hide Represents, Channels.Sound, Settles, Paired, OpenOn;
      if !Matches(slot, token) {
        return;
      }
      var _ := connections.Remove(slot);
      CancelSlot(slot, reach);
    }

    /** A new connection on a slot never has a token that was used before. */
    method Begin(slot: int, reach: nat -> Reach) returns (token: nat)
      requires Valid() && E.Minted(connections.Contents())
      modifies this`pending, this`log, versions, store, store.owned, connections
      ensures Valid() && store.owned == old(store.owned) && E.Minted(connections.Contents())
      ensures token != 0 <==> 0 <= slot < SLOTS
      ensures token != 0 ==> token == old(connections.nextId) && Matches(slot, token) && connections.nextId == token + 1
      ensures connections.Contents() == if token != 0 then E.Mint(old(connections.Contents()), slot, 0) else old(connections.Contents())
      ensures if token != 0 && old(Generation(slot)) != 0 then Settles(old(Desk()), Desk(), old(OpenOn(slot)), reach) else Desk() == old(Desk())
      ensures token != 0 ==> forall t: nat :: old(Matches(slot, t)) ==> !Matches(slot, t)
    {
      hide Represents, Channels.Sound, Settles, Paired, OpenOn;
      if slot < 0 || slot >= SLOTS {
        return 0;
      }
      End(slot, Generation(slot), reach);
      token := connections.Insert(slot, 0);
    }

    method Ensure(slot: int, reach: nat -> Reach) returns (token: nat)
      requires Valid() && E.Minted(connections.Contents())
      modifies this`pending, this`log, versions, store, store.owned, connections
      ensures Valid() && E.Minted(connections.Contents())
      ensures store.owned == old(store.owned) && Desk() == old(Desk())
      ensures token != 0 <==> old(Generation(slot)) != 0 || 0 <= slot < SLOTS
      ensures token != 0 ==> Matches(slot, token)
      ensures old(Generation(slot)) != 0 ==> token == old(Generation(slot))
      ensures connections.Contents()
              == if token != old(Generation(slot)) then E.Mint(old(connections.Contents()), slot, 0) else old(connections.Contents())
    {
      token := Generation(slot);
      if token == 0 {
        token := Begin(slot, reach);
      }
    }
  }

  lemma {:induction false} NotOnFlat(store: Channels, id: nat)
    requires store.Valid() && id !in store.ids
    ensures forall i | 0 <= i < |store.flat| :: store.flat[i].id != id
  {
  }

  lemma {:induction false} StillPending(before: ConvarSpec.Desk, middle: ConvarSpec.Desk, done: map<nat, Outcome>, reach: nat -> Reach, c: nat)
    requires Settles(before, middle, done, reach) && c in before.pending && c !in done
    ensures c in middle.pending && middle.pending[c] == before.pending[c]
  {
  }

  lemma {:induction false} Recorded(pending: map<nat, Query>, flat: seq<Sub>, c: nat, outcome: Outcome)
    requires Paired(pending, flat) && c in pending
    ensures Paired(pending[c := pending[c].(outcome := Some(outcome))], flat)
  {
    hide KeyOf;
    var after := pending[c := pending[c].(outcome := Some(outcome))];
    KeepsAll(flat, WithAnyId([]), false);
    PairedThin(pending, flat, WithAnyId([]), after);
  }

  lemma {:induction false} OwnerGone(pending: map<nat, Query>, flat: seq<Sub>, owner: Name)
    requires Paired(pending, flat)
    ensures Paired(map c | c in pending && pending[c].owner != owner :: pending[c], Without(flat, OwnedBy(owner)))
  {
    hide KeyOf;
    PairedThin(pending, flat, OwnedBy(owner), map c | c in pending && pending[c].owner != owner :: pending[c]);
  }

  lemma {:induction false} IdsGone(pending: map<nat, Query>, flat: seq<Sub>, gone: seq<nat>)
    requires Paired(pending, flat)
    ensures Paired(map c | c in pending && pending[c].subId !in gone :: pending[c], Without(flat, WithAnyId(gone)))
  {
    hide KeyOf;
    PairedThin(pending, flat, WithAnyId(gone), map c | c in pending && pending[c].subId !in gone :: pending[c]);
  }

  lemma {:induction false} OwnServed(pending: map<nat, Query>, flat: seq<Sub>, c: nat)
    requires Paired(pending, flat) && c in pending
    ensures Served(flat, c, pending[c])
  {
    hide KeyOf, Claimed, Served;
  }

  /** Only a query's own subscription has its id. */
  lemma {:induction false} OwnSub(pending: map<nat, Query>, flat: seq<Sub>, c: nat, d: nat, i: nat)
    requires Paired(pending, flat) && c in pending && d in pending && i < |flat|
    requires Serves(flat[i], d, pending[d]) && flat[i].id == pending[c].subId
    ensures c == d
  {
    hide KeyOf, Paired;
    assert Served(flat, c, pending[c]) by {
      OwnServed(pending, flat, c);
    }
    var at :| 0 <= at < |flat| && Serves(flat[at], c, pending[c]);
    BothClaimed(pending, flat, i, at);
    KeyInjective(c, d);
  }

  lemma {:induction false} Gone(pending: map<nat, Query>, flat: seq<Sub>, c: nat)
    requires Paired(pending, flat) && c in pending
    ensures Paired(pending - {c}, Without(flat, WithAnyId([pending[c].subId])))
  {
    hide KeyOf, Paired, Keep;
    var t := WithAnyId([pending[c].subId]);
    forall d, i | d in pending && 0 <= i < |flat| && Serves(flat[i], d, pending[d]) ensures d in pending - {c} <==> !Meets(t, flat[i]) {
      if flat[i].id == pending[c].subId {
        OwnSub(pending, flat, c, d, i);
      }
    }
    PairedThin(pending, flat, t, pending - {c});
  }
}
