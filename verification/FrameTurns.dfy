/** How much one game frame delivers, and whose turn it is. */
module FrameTurns {
  import opened Admission
  import opened Jobs

  class FrameBudget {
    var items: nat
    var bytes: nat
    var polls: nat
    const maxItems: nat
    const maxBytes: nat
    const pollLimit: nat

    constructor (p: AsyncPolicy)
      ensures items == 0 && bytes == 0 && polls == 0
      ensures maxItems == p.frameItems && maxBytes == p.frameBytes && pollLimit == p.framePollItems
    {
      items, bytes, polls := 0, 0, 0;
      maxItems, maxBytes, pollLimit := p.frameItems, p.frameBytes, p.framePollItems;
    }

    /** Within the item limit; above the byte limit only by a delivery that is alone in its frame. */
    ghost predicate Held()
      reads this
    {
      items <= maxItems && (bytes <= maxBytes || items == 1)
    }

    /** `inTime` is whether the soft time limit has not passed yet. */
    predicate Can(amount: nat, inTime: bool)
      reads this
    {
      && items < maxItems
      && (items == 0 || (inTime && amount <= SaturatingSub(maxBytes, bytes)))
      && (items == 0 || bytes < maxBytes)
    }

    method Spend(amount: nat)
      modifies this`items, this`bytes
      ensures items == old(items) + 1 && bytes == Saturated(old(bytes) + amount)
    {
      items := items + 1;
      bytes := Saturated(bytes + amount);
    }

    method Poll(inTime: bool) returns (may: bool)
      modifies this`polls
      ensures may <==> old(polls) < pollLimit && (old(polls) == 0 || inTime)
      ensures polls == old(polls) + if may then 1 else 0
    {
      if polls >= pollLimit || (polls > 0 && !inTime) {
        return false;
      }
      polls := polls + 1;
      may := true;
    }
  }

  /** A piece of work that is waiting: its size, and whether the soft limit still stands when its turn comes. */
  datatype Offer = Offer(bytes: nat, inTime: bool)

  /** The work waiting in one frame: from before the callbacks, and the callbacks. */
  datatype Load = Load(pre: seq<Offer>, callbacks: seq<Offer>)

  // ---- what frames deliver ----

  /** Whether an offer is delivered in a frame that has delivered `items` and `bytes`; `reserve` items are kept back. */
  predicate Admits(maxItems: nat, maxBytes: nat, items: nat, bytes: nat, o: Offer, reserve: nat) {
    && items + reserve < maxItems
    && (items == 0 || (o.inTime && bytes + o.bytes <= maxBytes && bytes < maxBytes))
  }

  /** How many offers go out before one is refused, and what the frame has delivered then. */
  function Deliveries(maxItems: nat, maxBytes: nat, offers: seq<Offer>, items: nat, bytes: nat, reserve: nat): (nat, nat, nat) {
    if offers == [] || !Admits(maxItems, maxBytes, items, bytes, offers[0], reserve) then (0, items, bytes)
    else
      var (done, i, b) := Deliveries(maxItems, maxBytes, offers[1..], items + 1, Saturated(bytes + offers[0].bytes), reserve);
      (done + 1, i, b)
  }

  /** One frame: with the turn there is nothing kept back from earlier work, and without it everything. */
  function Played(p: AsyncPolicy, turn: bool, load: Load): (nat, nat) {
    var (pre, items, bytes) := Deliveries(p.frameItems, p.frameBytes, load.pre, 0, 0, if turn then 0 else p.frameItems);
    (pre, Deliveries(p.frameItems, p.frameBytes, load.callbacks, items, bytes, 0).0)
  }

  function Totals(p: AsyncPolicy, turn: bool, loads: seq<Load>): (nat, nat)
    decreases |loads|
  {
    if loads == [] then (0, 0) else
      var (a, b), (pre, callbacks) := Played(p, turn, loads[0]), Totals(p, !turn, loads[1..]);
      (a + pre, b + callbacks)
  }

  lemma {:induction false} DeliveriesSplit(maxItems: nat, maxBytes: nat, offers: seq<Offer>, items: nat, bytes: nat, reserve: nat)
    ensures var (done, i, b) := Deliveries(maxItems, maxBytes, offers, items, bytes, reserve);
            && done <= |offers| && i == items + done
            && (done > 0 <==> offers != [] && Admits(maxItems, maxBytes, items, bytes, offers[0], reserve))
  {
    if offers != [] && Admits(maxItems, maxBytes, items, bytes, offers[0], reserve) {
      DeliveriesSplit(maxItems, maxBytes, offers[1..], items + 1, Saturated(bytes + offers[0].bytes), reserve);
    }
  }

  lemma {:induction false} DeliveriesNone(maxItems: nat, maxBytes: nat, items: nat, bytes: nat, reserve: nat)
    ensures Deliveries(maxItems, maxBytes, [], items, bytes, reserve) == (0, items, bytes)
  {
  }

  /** The offers from `n` on, one further. */
  lemma {:induction false} DeliveriesNext(maxItems: nat, maxBytes: nat, offers: seq<Offer>, n: nat, items: nat, bytes: nat, reserve: nat)
    requires n < |offers|
    ensures var all := Deliveries(maxItems, maxBytes, offers[n..], items, bytes, reserve);
            if !Admits(maxItems, maxBytes, items, bytes, offers[n], reserve) then all == (0, items, bytes)
            else
              var rest := Deliveries(maxItems, maxBytes, offers[n + 1..], items + 1, Saturated(bytes + offers[n].bytes), reserve);
              all == (rest.0 + 1, rest.1, rest.2)
  {
    assert offers[n..][0] == offers[n] && offers[n..][1..] == offers[n + 1..];
  }

  ghost function Size(offers: seq<Offer>): nat {
    if offers == [] then 0 else Size(offers[..|offers| - 1]) + offers[|offers| - 1].bytes
  }

  /** Whether offer `k` may go out after those before it, in a frame that had delivered `items` of `sum` bytes: the first of a frame
      always, another only in time and within the bytes. */
  ghost predicate Goes(p: AsyncPolicy, offers: seq<Offer>, k: nat, items: nat, sum: nat)
    requires k < |offers|
  {
    && items + k < p.frameItems
    && (items + k == 0 || (offers[k].inTime && sum + Size(offers[..k]) < p.frameBytes && sum + Size(offers[..k + 1]) <= p.frameBytes))
  }

  /** Offers go out exactly up to the first that may not: nothing that fits is held back, and nothing else is delivered. */
  lemma {:induction false} DeliveredExactly(p: AsyncPolicy, offers: seq<Offer>, items: nat, sum: nat)
    requires p.frameBytes <= U64_MAX
    ensures var (done, i, b) := Deliveries(p.frameItems, p.frameBytes, offers, items, Saturated(sum), 0);
            && done <= |offers| && i == items + done && b == Saturated(sum + Size(offers[..done]))
            && (forall k | 0 <= k < done :: Goes(p, offers, k, items, sum))
            && (done < |offers| ==> !Goes(p, offers, done, items, sum))
  {
    DeliveredFrom(p, offers, 0, items, sum);
    assert offers[0..] == offers && offers[..0] == [];
  }

  lemma {:induction false} DeliveredFrom(p: AsyncPolicy, offers: seq<Offer>, n: nat, items: nat, sum: nat)
    requires p.frameBytes <= U64_MAX && n <= |offers|
    ensures var (done, i, b) := Deliveries(p.frameItems, p.frameBytes, offers[n..], items + n, Saturated(sum + Size(offers[..n])), 0);
            && n + done <= |offers| && i == items + n + done && b == Saturated(sum + Size(offers[..n + done]))
            && (forall k | n <= k < n + done :: Goes(p, offers, k, items, sum))
            && (n + done < |offers| ==> !Goes(p, offers, n + done, items, sum))
    decreases |offers| - n
  {
    hide Deliveries, Size;
    if n == |offers| {
      assert offers[n..] == [];
      DeliveriesNone(p.frameItems, p.frameBytes, items + n, Saturated(sum + Size(offers[..n])), 0);
    } else {
      SizeNext(offers, n);
      DeliveriesNext(p.frameItems, p.frameBytes, offers, n, items + n, Saturated(sum + Size(offers[..n])), 0);
      DeliveredFrom(p, offers, n + 1, items, sum);
    }
  }

  lemma {:induction false} SizeNext(offers: seq<Offer>, n: nat)
    requires n < |offers|
    ensures Size(offers[..n + 1]) == Size(offers[..n]) + offers[n].bytes
  {
    assert offers[..n + 1][..n] == offers[..n];
  }

  /** One frame: without the turn earlier work gets nothing, with it what may go out, and then the callbacks what may after that. */
  lemma {:induction false} FrameExactly(p: AsyncPolicy, turn: bool, load: Load)
    requires p.frameBytes <= U64_MAX
    ensures var (pre, callbacks) := Played(p, turn, load);
            && pre <= |load.pre| && callbacks <= |load.callbacks|
            && (!turn ==> pre == 0)
            && (turn ==> (forall k | 0 <= k < pre :: Goes(p, load.pre, k, 0, 0)) && (pre < |load.pre| ==> !Goes(p, load.pre, pre, 0, 0)))
            && var sum := Size(load.pre[..pre]);
               && (forall k | 0 <= k < callbacks :: Goes(p, load.callbacks, k, pre, sum))
               && (callbacks < |load.callbacks| ==> !Goes(p, load.callbacks, callbacks, pre, sum))
  {
    hide Goes;
    var (pre, items, bytes) := Deliveries(p.frameItems, p.frameBytes, load.pre, 0, 0, if turn then 0 else p.frameItems);
    DeliveriesSplit(p.frameItems, p.frameBytes, load.pre, 0, 0, if turn then 0 else p.frameItems);
    if turn {
      DeliveredExactly(p, load.pre, 0, 0);
    } else {
      NothingKept(p, load.pre);
    }
    DeliveredExactly(p, load.callbacks, pre, Size(load.pre[..pre]));
  }

  lemma {:induction false} NothingKept(p: AsyncPolicy, offers: seq<Offer>)
    ensures Deliveries(p.frameItems, p.frameBytes, offers, 0, 0, p.frameItems) == (0, 0, 0) && Size(offers[..0]) == 0
  {
  }

  /** The turn decides whether earlier work gets anything; without it the callbacks do. */
  lemma {:induction false} TurnDecides(p: AsyncPolicy, turn: bool, load: Load)
    requires 0 < p.frameItems && load.callbacks != []
    ensures var (pre, callbacks) := Played(p, turn, load);
            && (!turn ==> pre == 0 && callbacks > 0) && (turn ==> (pre > 0 <==> load.pre != []))
            && pre + callbacks > 0
  {
    var reserve := if turn then 0 else p.frameItems;
    DeliveriesSplit(p.frameItems, p.frameBytes, load.pre, 0, 0, reserve);
    var (pre, items, bytes) := Deliveries(p.frameItems, p.frameBytes, load.pre, 0, 0, reserve);
    DeliveriesSplit(p.frameItems, p.frameBytes, load.callbacks, items, bytes, 0);
    if pre == 0 {
      assert items == 0;
    }
  }

  /** With both kinds always waiting, each kind gets a delivery in every second frame. */
  lemma {:induction false} EachKindServed(p: AsyncPolicy, turn: bool, loads: seq<Load>)
    requires 0 < p.frameItems && forall i | 0 <= i < |loads| :: loads[i].pre != [] && loads[i].callbacks != []
    ensures var (pre, callbacks) := Totals(p, turn, loads);
            && pre >= (if turn then |loads| + 1 else |loads|) / 2
            && callbacks >= (if turn then |loads| else |loads| + 1) / 2
    decreases |loads|
  {
    if loads != [] {
      TurnDecides(p, turn, loads[0]);
      EachKindServed(p, !turn, loads[1..]);
    }
  }

  lemma {:induction false} TotalsNone(p: AsyncPolicy, turn: bool)
    ensures Totals(p, turn, []) == (0, 0)
  {
  }

  lemma {:induction false} TotalsNext(p: AsyncPolicy, turn: bool, loads: seq<Load>, n: nat)
    requires n < |loads|
    ensures var one, rest := Played(p, turn, loads[n]), Totals(p, !turn, loads[n + 1..]);
            Totals(p, turn, loads[n..]) == (one.0 + rest.0, one.1 + rest.1)
  {
    assert loads[n..][0] == loads[n] && loads[n..][1..] == loads[n + 1..];
  }

  class Pacer {
    var frame: FrameBudget?
    var preReserve: nat
    var preTurn: bool

    constructor ()
      ensures frame == null && preReserve == 0 && !preTurn
    {
      frame, preReserve, preTurn := null, 0, false;
    }

    /** With callbacks waiting the turn alternates: every second such frame has no room for earlier work. */
    method BeginFrame(p: AsyncPolicy, callbacks: bool)
      modifies this
      ensures frame != null && fresh(frame) && frame.items == 0 && frame.bytes == 0 && frame.polls == 0
      ensures frame.maxItems == p.frameItems && frame.maxBytes == p.frameBytes && frame.pollLimit == p.framePollItems
      ensures preTurn == (if callbacks then !old(preTurn) else old(preTurn))
      ensures preReserve == if callbacks && !old(preTurn) then p.frameItems else 0
    {
      preReserve := 0;
      if callbacks {
        var old_ := preTurn;
        preTurn := !old_;
        preReserve := if old_ then 0 else p.frameItems;
      }
      frame := new FrameBudget(p);
    }

    predicate CanDeliver(amount: nat, pre: bool, inTime: bool)
      reads this, frame
    {
      frame == null || (frame.Can(amount, inTime) && (!pre || frame.items + preReserve < frame.maxItems))
    }

    method Deliver(amount: nat)
      modifies frame
      ensures frame != null ==> frame.items == old(frame.items) + 1 && frame.bytes == Saturated(old(frame.bytes) + amount)
    {
      if frame != null {
        frame.Spend(amount);
      }
    }

    /** Delivers waiting work of one kind until something is refused. */
    method Drain(offers: seq<Offer>, pre: bool) returns (done: nat)
      requires frame != null && frame.Held() && frame.maxBytes <= U64_MAX
      modifies frame`items, frame`bytes
      ensures frame.Held() && done <= |offers| && frame.items == old(frame.items) + done
      ensures (done, frame.items, frame.bytes) == Deliveries(
                frame.maxItems, frame.maxBytes, offers, old(frame.items), old(frame.bytes), if pre then preReserve else 0)
      ensures done > 0 <==> offers != [] && old(CanDeliver(offers[0].bytes, pre, offers[0].inTime))
      ensures done < |offers| ==> !CanDeliver(offers[done].bytes, pre, offers[done].inTime)
    {
      hide Deliveries;
      done := 0;
      ghost var reserve := if pre then preReserve else 0;
      ghost var all := Deliveries(frame.maxItems, frame.maxBytes, offers, frame.items, frame.bytes, reserve);
      assert offers == offers[0..];
      while done < |offers| && CanDeliver(offers[done].bytes, pre, offers[done].inTime)
        invariant done <= |offers| && frame.Held() && frame.items == old(frame.items) + done
        invariant done == 0 ==> frame.bytes == old(frame.bytes)
        invariant var rest := Deliveries(frame.maxItems, frame.maxBytes, offers[done..], frame.items, frame.bytes, reserve);
                  (done + rest.0, rest.1, rest.2) == all
        invariant done > 0 ==> offers != [] && old(CanDeliver(offers[0].bytes, pre, offers[0].inTime))
      {
        DeliveriesNext(frame.maxItems, frame.maxBytes, offers, done, frame.items, frame.bytes, reserve);
        frame.Spend(offers[done].bytes);
        done := done + 1;
      }
      if done < |offers| {
        DeliveriesNext(frame.maxItems, frame.maxBytes, offers, done, frame.items, frame.bytes, reserve);
      } else {
        assert offers[done..] == [];
        DeliveriesNone(frame.maxItems, frame.maxBytes, frame.items, frame.bytes, reserve);
      }
    }

    /** One frame with callbacks waiting: the first delivery is always allowed, and exactly the turn decides whether earlier
        work gets any. */
    method PlayFrame(p: AsyncPolicy, load: Load) returns (pre: nat, callbacks: nat)
      requires 0 < p.frameItems <= U64_MAX && p.frameBytes <= U64_MAX && load.callbacks != []
      modifies this
      ensures frame != null && frame.Held() && frame.maxItems == p.frameItems && frame.maxBytes == p.frameBytes
      ensures (pre, callbacks) == Played(p, old(preTurn), load)
      ensures frame.items == pre + callbacks > 0
      ensures preTurn == !old(preTurn)
      ensures !old(preTurn) ==> pre == 0
      ensures old(preTurn) && load.pre != [] ==> pre > 0
    {
      hide Deliveries;
      TurnDecides(p, preTurn, load);
      BeginFrame(p, true);
      pre := Drain(load.pre, true);
      callbacks := Drain(load.callbacks, false);
    }
  }

  /** The deliveries of a run of frames with callbacks waiting. With both kinds always waiting, each gets one in every second
      frame, for every positive item limit and whatever the clock does. */
  method PlayFrames(pacer: Pacer, p: AsyncPolicy, loads: seq<Load>) returns (pre: nat, callbacks: nat)
    requires 0 < p.frameItems <= U64_MAX && p.frameBytes <= U64_MAX
    requires forall i | 0 <= i < |loads| :: loads[i].callbacks != []
    modifies pacer
    ensures (pre, callbacks) == Totals(p, old(pacer.preTurn), loads)
    ensures (forall i | 0 <= i < |loads| :: loads[i].pre != []) ==> pre >= |loads| / 2 && callbacks >= |loads| / 2
    ensures pacer.preTurn == if |loads| % 2 == 0 then old(pacer.preTurn) else !old(pacer.preTurn)
  {
    hide Played, Totals;
    pre, callbacks := 0, 0;
    ghost var first := pacer.preTurn;
    if forall i | 0 <= i < |loads| :: loads[i].pre != [] {
      EachKindServed(p, first, loads);
    }
    assert loads == loads[0..];
    for i := 0 to |loads|
      invariant pacer.preTurn == if i % 2 == 0 then first else !first
      invariant var (a, b) := Totals(p, pacer.preTurn, loads[i..]); (pre + a, callbacks + b) == Totals(p, first, loads)
    {
      TotalsNext(p, pacer.preTurn, loads, i);
      var a, b := pacer.PlayFrame(p, loads[i]);
      pre, callbacks := pre + a, callbacks + b;
    }
    assert loads[|loads|..] == [];
    TotalsNone(p, pacer.preTurn);
  }
}
