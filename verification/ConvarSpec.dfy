/** Console-variable queries: what may happen to a pending query. */
module ConvarSpec {
  import opened Multiplexer
  import opened ChannelSpec
  import opened Decimals
  import opened Options
  import E = EntitySpec

  /** What a query settles with. */
  datatype Outcome = Cancelled | Answered(status: int, value: string)

  /** A pending query; an outcome is recorded when its delivery had to be put off. */
  datatype Query = Query(slot: int, token: nat, name: string, owner: Name, subId: nat, deadline: int, outcome: Option<Outcome>)

  datatype Delivery = Delivery(cookie: nat, outcome: Outcome)

  /** How far a settlement gets: the callback runs, it is skipped because its owner is no longer live, or the isolate is busy. */
  datatype Reach = Runs | Skips | Busy

  /** The pending table and the callbacks that ran. */
  datatype Desk = Desk(pending: map<nat, Query>, log: seq<Delivery>)

  // ---- the channel of a cookie ----

  function KeyOf(cookie: nat): Name {
    Name(Decimal(cookie))
  }

  lemma {:induction false} KeyInjective(a: nat, b: nat)
    requires KeyOf(a) == KeyOf(b)
    ensures a == b
  {
    DecimalInjective(a, b);
  }

  /** The subscription of a query. */
  ghost predicate Serves(e: Sub, c: nat, q: Query) {
    e.channel == KeyOf(c) && e.id == q.subId && e.owner == q.owner
  }

  ghost predicate Served(flat: seq<Sub>, c: nat, q: Query) {
    exists i :: 0 <= i < |flat| && Serves(flat[i], c, q)
  }

  ghost predicate Claimed(pending: map<nat, Query>, e: Sub) {
    exists c :: c in pending && Serves(e, c, pending[c])
  }

  /** The pending table and the subscriptions are two views of one set of queries. */
  ghost predicate Paired(pending: map<nat, Query>, flat: seq<Sub>) {
    && (forall c | c in pending :: Served(flat, c, pending[c]))
    && (forall i | 0 <= i < |flat| :: Claimed(pending, flat[i]))
    && DistinctKeys(flat)
  }

  lemma {:induction false} BothClaimed(pending: map<nat, Query>, flat: seq<Sub>, i: nat, j: nat)
    requires Paired(pending, flat) && i < |flat| && j < |flat|
    ensures Claimed(pending, flat[i]) && Claimed(pending, flat[j]) && (flat[i].id == flat[j].id ==> i == j)
  {
    hide KeyOf, Claimed, Served;
  }

  /** Each pending query has one subscription of its own, and every subscription is on a channel of its own. */
  lemma {:induction false} OneEach(pending: map<nat, Query>, flat: seq<Sub>, i: nat, j: nat)
    requires Paired(pending, flat) && i < |flat| && j < |flat| && flat[i].channel == flat[j].channel
    ensures i == j
  {
    hide KeyOf, Paired;
    BothClaimed(pending, flat, i, j);
    var a :| a in pending && Serves(flat[i], a, pending[a]);
    var b :| b in pending && Serves(flat[j], b, pending[b]);
    KeyInjective(a, b);
  }

  lemma {:induction false} StillServed(flat: seq<Sub>, e: Sub, c: nat, q: Query)
    requires Served(flat, c, q)
    ensures Served(flat + [e], c, q)
  {
    hide Serves;
    var i :| 0 <= i < |flat| && Serves(flat[i], c, q);
    assert (flat + [e])[i] == flat[i];
  }

  lemma {:induction false} StillClaimed(pending: map<nat, Query>, c: nat, q: Query, e: Sub)
    requires Claimed(pending, e) && c !in pending
    ensures Claimed(pending[c := q], e)
  {
    hide Serves;
    var d :| d in pending && Serves(e, d, pending[d]);
    assert pending[c := q][d] == pending[d];
  }

  lemma {:induction false} PairedAdd(pending: map<nat, Query>, flat: seq<Sub>, c: nat, q: Query, handler: Handler)
    requires Paired(pending, flat) && c !in pending
    requires forall i | 0 <= i < |flat| :: flat[i].id != q.subId
    ensures Paired(pending[c := q], flat + [Sub(KeyOf(c), q.subId, q.owner, handler)])
  {
    hide KeyOf, Served, Claimed;
    var e := Sub(KeyOf(c), q.subId, q.owner, handler);
    var pending', flat' := pending[c := q], flat + [e];
    NewPair(pending, flat, c, q, e);
    forall d | d in pending' ensures Served(flat', d, pending'[d]) {
      if d != c {
        StillServed(flat, e, d, pending[d]);
      }
    }
    forall i | 0 <= i < |flat'| ensures Claimed(pending', flat'[i]) {
      if i < |flat| {
        StillClaimed(pending, c, q, flat[i]);
      }
    }
  }

  lemma {:induction false} NewPair(pending: map<nat, Query>, flat: seq<Sub>, c: nat, q: Query, e: Sub)
    requires Serves(e, c, q)
    ensures Served(flat + [e], c, q) && Claimed(pending[c := q], e)
  {
    assert (flat + [e])[|flat|] == e;
    assert pending[c := q][c] == q;
  }

  /** Thinning both sides by one test keeps them paired. */
  lemma {:induction false} PairedThin(pending: map<nat, Query>, flat: seq<Sub>, t: Test, after: map<nat, Query>)
    requires Paired(pending, flat)
    requires forall c | c in after :: c in pending && after[c].subId == pending[c].subId && after[c].owner == pending[c].owner
    requires forall c, i | c in pending && 0 <= i < |flat| && Serves(flat[i], c, pending[c]) :: c in after <==> !Meets(t, flat[i])
    ensures Paired(after, Without(flat, t))
  {
    hide KeyOf, Meets;
    var rest := Without(flat, t);
    DistinctKept(flat, t, false);
    forall c | c in after ensures Served(rest, c, after[c]) {
      assert Served(flat, c, pending[c]);
      var i :| 0 <= i < |flat| && Serves(flat[i], c, pending[c]);
      var k := KeptAt(flat, t, false, i);
      assert Serves(rest[k], c, after[c]);
    }
    forall k | 0 <= k < |rest| ensures Claimed(after, rest[k]) {
      var i := KeptFrom(flat, t, false, k);
      assert Claimed(pending, flat[i]);
      var c :| c in pending && Serves(flat[i], c, pending[c]);
      assert c in after && Serves(rest[k], c, after[c]);
    }
  }

  // ---- what is due ----

  /** A token is good on a slot while the connection it was handed out for lasts. */
  predicate Holds(entries: map<int, E.Entry>, slot: int, token: nat) {
    token != 0 && slot in entries && entries[slot].id == token
  }

  /** The open queries of a slot, to be settled with null. */
  function Open(pending: map<nat, Query>, slot: int): map<nat, Outcome> {
    map c | c in pending && pending[c].slot == slot && pending[c].outcome.None? :: Cancelled
  }

  /** What a sweep settles: what was recorded, and null for a query past its deadline or its connection. */
  function Due(pending: map<nat, Query>, entries: map<int, E.Entry>, now: int): map<nat, Outcome> {
    map c | c in pending
      && (pending[c].outcome.Some? || now >= pending[c].deadline || !Holds(entries, pending[c].slot, pending[c].token))
      :: if pending[c].outcome.Some? then pending[c].outcome.value else Cancelled
  }

  // ---- settling ----

  /** The table after settling `due`: what the busy isolate put off stays, with its outcome recorded. */
  ghost predicate TableSettled(before: map<nat, Query>, after: map<nat, Query>, due: map<nat, Outcome>, reach: nat -> Reach) {
    && (forall c | c in due :: c in before)
    && (forall c :: c in after <==> c in before && (c !in due || reach(c).Busy?))
    && (forall c | c in after :: after[c] == if c in due then before[c].(outcome := Some(due[c])) else before[c])
  }

  ghost predicate CalledBack(log: seq<Delivery>, from: nat, c: nat, outcome: Outcome) {
    exists j :: from <= j < |log| && log[j] == Delivery(c, outcome)
  }

  /** The callbacks that ran: once for each query settled whose callback could run. */
  ghost predicate LogSettled(before: seq<Delivery>, after: seq<Delivery>, due: map<nat, Outcome>, reach: nat -> Reach) {
    && before <= after
    && (forall c | c in due && reach(c).Runs? :: CalledBack(after, |before|, c, due[c]))
    && (forall j | |before| <= j < |after| ::
          after[j].cookie in due && reach(after[j].cookie).Runs? && after[j].outcome == due[after[j].cookie])
    && (forall j, k | |before| <= j < k < |after| :: after[j].cookie != after[k].cookie)
  }

  /** Exactly the queries in `due` were settled, each with its outcome. */
  ghost predicate Settles(before: Desk, after: Desk, due: map<nat, Outcome>, reach: nat -> Reach) {
    TableSettled(before.pending, after.pending, due, reach) && LogSettled(before.log, after.log, due, reach)
  }

  /** The desk after one settlement. */
  ghost function Settled(d: Desk, c: nat, outcome: Outcome, reach: Reach): Desk
    requires c in d.pending
  {
    match reach
    case Busy => Desk(d.pending[c := d.pending[c].(outcome := Some(outcome))], d.log)
    case Skips => Desk(d.pending - {c}, d.log)
    case Runs => Desk(d.pending - {c}, d.log + [Delivery(c, outcome)])
  }

  function Everywhere(reach: Reach): nat -> Reach {
    (c: nat) => reach
  }

  lemma {:induction false} SettlesNone(d: Desk, reach: nat -> Reach)
    ensures Settles(d, d, map[], reach)
  {
  }

  lemma {:induction false} LogNext(before: seq<Delivery>, middle: seq<Delivery>, due: map<nat, Outcome>, reach: nat -> Reach, c: nat, outcome: Outcome)
    requires LogSettled(before, middle, due, reach) && c !in due
    ensures LogSettled(before, if reach(c).Runs? then middle + [Delivery(c, outcome)] else middle, due[c := outcome], reach)
  {
    var after, due' := if reach(c).Runs? then middle + [Delivery(c, outcome)] else middle, due[c := outcome];
    forall d | d in due' && reach(d).Runs? ensures CalledBack(after, |before|, d, due'[d]) {
      if d == c {
        assert after[|middle|] == Delivery(c, outcome);
      } else {
        assert CalledBack(middle, |before|, d, due[d]);
        var j :| |before| <= j < |middle| && middle[j] == Delivery(d, due[d]);
        assert after[j] == middle[j];
      }
    }
  }

  lemma {:induction false} TableNext(before: map<nat, Query>, middle: map<nat, Query>, due: map<nat, Outcome>, reach: nat -> Reach, c: nat, outcome: Outcome)
    requires TableSettled(before, middle, due, reach) && c !in due && c in before
    ensures TableSettled(before, if reach(c).Busy? then middle[c := before[c].(outcome := Some(outcome))] else middle - {c}, due[c := outcome], reach)
  {
  }

  /** One more. */
  lemma {:induction false} SettlesNext(before: Desk, middle: Desk, due: map<nat, Outcome>, reach: nat -> Reach, c: nat, outcome: Outcome)
    requires Settles(before, middle, due, reach) && c !in due && c in before.pending && c in middle.pending
    ensures Settles(before, Settled(middle, c, outcome, reach(c)), due[c := outcome], reach)
  {
    hide LogSettled;
    assert middle.pending[c] == before.pending[c];
    hide TableSettled;
    LogNext(before.log, middle.log, due, reach, c, outcome);
    TableNext(before.pending, middle.pending, due, reach, c, outcome);
  }

  // ---- whole runs ----

  /** Nothing was called back twice, nothing called back is still pending, and every cookie was minted. */
  ghost predicate Orderly(d: Desk, minted: set<nat>) {
    && (forall c | c in d.pending :: c in minted)
    && (forall j | 0 <= j < |d.log| :: d.log[j].cookie in minted && d.log[j].cookie !in d.pending)
    && (forall j, k | 0 <= j < k < |d.log| :: d.log[j].cookie != d.log[k].cookie)
  }

  /** What later steps may do to the queries pending now: a recorded outcome stays what it is until it is delivered,
      nothing else about a query changes, and a query that is gone does not come back. */
  ghost predicate Follows(before: Desk, after: Desk, minted: set<nat>) {
    && before.log <= after.log
    && (forall c | c in after.pending && c !in before.pending :: c !in minted)
    && (forall c | c in before.pending && c in after.pending ::
          && after.pending[c].(outcome := before.pending[c].outcome) == before.pending[c]
          && (before.pending[c].outcome.Some? ==> after.pending[c].outcome == before.pending[c].outcome))
    && (forall j | |before.log| <= j < |after.log| && after.log[j].cookie in minted ::
          && after.log[j].cookie in before.pending
          && var q := before.pending[after.log[j].cookie]; q.outcome.Some? ==> after.log[j].outcome == q.outcome.value)
  }

  /** What is recorded is what is settled. */
  ghost predicate Faithful(pending: map<nat, Query>, due: map<nat, Outcome>) {
    forall c | c in due && c in pending && pending[c].outcome.Some? :: due[c] == pending[c].outcome.value
  }

  lemma {:induction false} SettlesFollow(before: Desk, after: Desk, due: map<nat, Outcome>, reach: nat -> Reach, minted: set<nat>)
    requires Settles(before, after, due, reach) && Faithful(before.pending, due) && Orderly(before, minted)
    ensures Follows(before, after, minted) && Orderly(after, minted)
    ensures forall c | c in after.pending :: c in before.pending
  {
  }

  /** Queries that go without being settled. */
  lemma {:induction false} RemovalFollows(before: Desk, after: Desk, minted: set<nat>)
    requires Orderly(before, minted) && after.log == before.log
    requires forall c | c in after.pending :: c in before.pending && after.pending[c] == before.pending[c]
    ensures Follows(before, after, minted) && Orderly(after, minted)
  {
  }

  lemma {:induction false} AskFollows(before: Desk, minted: set<nat>, c: nat, q: Query)
    requires Orderly(before, minted) && c !in minted
    ensures Follows(before, Desk(before.pending[c := q], before.log), minted)
    ensures Orderly(Desk(before.pending[c := q], before.log), minted + {c})
  {
  }

  lemma {:induction false} FollowsChain(a: Desk, b: Desk, c: Desk, minted: set<nat>, more: set<nat>)
    requires Follows(a, b, minted) && Follows(b, c, more) && minted <= more && Orderly(a, minted) && Orderly(b, more)
    ensures Follows(a, c, minted)
  {
  }
}
