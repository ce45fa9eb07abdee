/** Budgets and the leases they hand out. */
module Admission {
  import opened Ledger

  const U64_MAX: nat := 0xFFFF_FFFF_FFFF_FFFF

  datatype Answer = Admitted | Refused(error: AdmissionError)

  function Saturated(n: nat): nat {
    if n > U64_MAX then U64_MAX else n
  }

  function SaturatingSub(a: nat, b: nat): nat {
    if a > b then a - b else 0
  }

  class Budget {
    const limits: Limits
    var total: Gauge
    var rejected: nat
    var owners: map<Owner, Gauge>
    /** Every lease ever granted, by ticket. */
    ghost var book: Book

    ghost predicate Valid()
      reads this`total, this`owners, this`book
    {
      Balanced(limits, total, owners, book)
    }

    constructor (limits: Limits)
      ensures this.limits == limits && Valid() && book == [] && total == ZERO && owners == map[] && rejected == 0
    {
      this.limits := limits;
      total, rejected, owners, book := ZERO, 0, map[], [];
      new;
      Blank([]);
      forall o ensures SumsOf([], o) == ZERO {
        Blank(Of([], o));
      }
    }

    /** Admits a request exactly when it fits; otherwise nothing but the rejection count changes, and the answer tells
        a request that could never fit from one that must wait. */
    method Acquire(owner: Owner, items: nat, bytes: nat) returns (r: Result<Lease>)
      requires Valid()
      modifies this
      ensures Valid()
      ensures r.Ok? <==> Fits(limits, old(total), Shown(old(owners), owner), items, bytes)
      ensures r.Ok? <==> WithRoom(limits, old(book), owner, items, bytes)
      ensures r.Ok? ==> var lease := r.value;
                fresh(lease) && lease.budget == this && lease.owner == owner && lease.items == items && lease.bytes == bytes
                && lease.ticket == |old(book)| && book == old(book) + [Held(owner, items, bytes)]
                && total == Add(old(total), items, bytes) && rejected == old(rejected)
                && owners == old(owners)[owner := Add(Shown(old(owners), owner), items, bytes)]
      ensures r.Err? ==> total == old(total) && owners == old(owners) && book == old(book) && rejected == Saturated(old(rejected) + 1)
      ensures r.Err? ==> r.error == if Possible(limits, items, bytes) then QueueFull else PayloadTooLarge
      ensures r == Err(PayloadTooLarge) <==> items > limits.items || bytes > limits.bytes || items > limits.ownerItems || bytes > limits.ownerBytes
    {
      hide Balanced, WithRoom;
      RoomExactly(limits, total, owners, book, owner, items, bytes);
      var o := if owner in owners then owners[owner] else ZERO;
      WithinLimits(owner);
      var impossible := items > limits.items || bytes > limits.bytes || items > limits.ownerItems || bytes > limits.ownerBytes;
      if impossible
         || items > SaturatingSub(limits.items, total.items)
         || bytes > SaturatingSub(limits.bytes, total.bytes)
         || items > SaturatingSub(limits.ownerItems, o.items)
         || bytes > SaturatingSub(limits.ownerBytes, o.bytes) {
        rejected := Saturated(rejected + 1);
        return Err(if impossible then PayloadTooLarge else QueueFull);
      }
      Granted(limits, total, owners, book, owner, items, bytes);
      total := Gauge(total.items + items, total.bytes + bytes);
      owners := owners[owner := Gauge(o.items + items, o.bytes + bytes)];
      var lease := new Lease(this, owner, items, bytes, |book|);
      book := book + [Held(owner, items, bytes)];
      r := Ok(lease);
    }

    lemma {:induction false} WithinLimits(owner: Owner)
      requires Valid()
      ensures Within(total, limits.items, limits.bytes) && Within(Shown(owners, owner), limits.ownerItems, limits.ownerBytes)
    {
    }
  }

  class Lease {
    const budget: Budget
    const owner: Owner
    var items: nat
    var bytes: nat
    ghost const ticket: nat

    constructor (budget: Budget, owner: Owner, items: nat, bytes: nat, ghost ticket: nat)
      ensures this.budget == budget && this.owner == owner && this.items == items && this.bytes == bytes && this.ticket == ticket
    {
      this.budget, this.owner, this.items, this.bytes, this.ticket := budget, owner, items, bytes, ticket;
    }

    ghost predicate Live()
      reads this`items, this`bytes, budget`book
    {
      ticket < |budget.book| && budget.book[ticket] == Held(owner, items, bytes)
    }

    /** A lease that holds an item has its owner's entry, so the look-ups below never fail. */
    lemma {:induction false} Entered()
      requires budget.Valid() && Live()
      ensures items <= budget.total.items && bytes <= budget.total.bytes
      ensures items <= Shown(budget.owners, owner).items && bytes <= Shown(budget.owners, owner).bytes
      ensures items > 0 || bytes > 0 ==> owner in budget.owners
    {
      LeaseCounted(budget.limits, budget.total, budget.owners, budget.book, ticket);
    }

    method Drop()
      requires budget.Valid() && Live() && owner in budget.owners
      modifies budget`total, budget`owners, budget`book
      ensures budget.Valid() && budget.book == old(budget.book)[ticket := None]
      ensures budget.total == Gauge(SaturatingSub(old(budget.total).items, items), SaturatingSub(old(budget.total).bytes, bytes))
      ensures var own := old(budget.owners)[owner];
              budget.owners == if own == Gauge(items, bytes) then old(budget.owners) - {owner}
                               else old(budget.owners)[owner := Gauge(SaturatingSub(own.items, items), SaturatingSub(own.bytes, bytes))]
    {
      hide Balanced, Follows, HasLease;
      Entered();
      ghost var total, owners, book := budget.total, budget.owners, budget.book;
      budget.total := Gauge(budget.total.items - items, budget.total.bytes - bytes);
      var o := Gauge(budget.owners[owner].items - items, budget.owners[owner].bytes - bytes);
      budget.owners := budget.owners[owner := o];
      if o.items == 0 && o.bytes == 0 {
        budget.owners := budget.owners - {owner};
      }
      DroppedFollows(total, owners, book[ticket], budget.total, budget.owners);
      StillHeld(budget.limits, total, owners, book, ticket);
      Followed(budget.limits, total, owners, book, ticket, None, budget.total, budget.owners);
      budget.book := book[ticket := None];
    }

    method Shrink(amount: nat)
      requires budget.Valid() && Live() && owner in budget.owners
      modifies this`bytes, budget`total, budget`owners, budget`book
      ensures budget.Valid() && Live() && owner in budget.owners
      ensures bytes == SaturatingSub(old(bytes), amount)
      ensures budget.total.items == old(budget.total.items) && budget.total.bytes + old(bytes) == old(budget.total.bytes) + bytes
      ensures budget.book == old(budget.book)[ticket := Held(owner, items, bytes)]
      ensures budget.owners == old(budget.owners)[owner := Gauge(old(budget.owners)[owner].items,
                                                  SaturatingSub(old(budget.owners)[owner].bytes, old(bytes) - bytes))]
    {
      hide Balanced, Follows;
      Entered();
      ghost var total, owners, book := budget.total, budget.owners, budget.book;
      var less := if amount < bytes then amount else bytes;
      bytes := bytes - less;
      budget.total := budget.total.(bytes := budget.total.bytes - less);
      budget.owners := budget.owners[owner := budget.owners[owner].(bytes := budget.owners[owner].bytes - less)];
      ShrunkFollows(total, owners, book[ticket], less, budget.total, budget.owners);
      assert book[ticket := Held(owner, items, bytes)][ticket].owner == owner;
      Followed(budget.limits, total, owners, book, ticket, Held(owner, items, bytes), budget.total, budget.owners);
      budget.book := book[ticket := Held(owner, items, bytes)];
    }

    /** More bytes under the same item: a second lease of no items, emptied into this one and dropped. */
    method Grow(amount: nat) returns (answer: Answer)
      requires budget.Valid() && Live()
      modifies this`bytes, budget
      ensures budget.Valid() && Live()
      ensures answer == Admitted <==> Fits(budget.limits, old(budget.total), Shown(old(budget.owners), owner), 0, amount)
      ensures answer == Admitted ==> bytes == old(bytes) + amount
                                     && budget.book == old(budget.book)[ticket := Held(owner, items, bytes)] + [None]
      ensures answer == Admitted ==> var own := Add(Shown(old(budget.owners), owner), 0, amount);
                budget.owners == if own == ZERO then old(budget.owners) - {owner} else old(budget.owners)[owner := own]
      ensures answer == Admitted ==> budget.total == Add(old(budget.total), 0, amount)
      ensures answer != Admitted ==> bytes == old(bytes) && budget.book == old(budget.book)
                                     && budget.total == old(budget.total) && budget.owners == old(budget.owners)
      ensures answer != Admitted ==> answer == Refused(if Possible(budget.limits, 0, amount) then QueueFull else PayloadTooLarge)
    {
      hide Balanced;
      var r := budget.Acquire(owner, 0, amount);
      if r.Err? {
        return Refused(r.error);
      }
      var extra := r.value;
      Shifted(budget.limits, budget.total, budget.owners, budget.book, ticket, extra.ticket);
      bytes := bytes + extra.bytes;
      extra.bytes := 0;
      budget.book := budget.book[ticket := Held(owner, items, bytes)][extra.ticket := Held(owner, 0, 0)];
      extra.Drop();
      answer := Admitted;
    }
  }

  /** Without an item a lease can lose its owner's entry while it is live: growing it by nothing removes the entry,
      and the look-up in a later drop would fail. */
  method ZeroItemLease(owner: Owner) returns (lease: Lease)
    ensures lease.budget.Valid() && lease.Live() && lease.owner == owner && owner !in lease.budget.owners
  {
    var budget := new Budget(Limits(1, 1, 1, 1));
    var r := budget.Acquire(owner, 0, 0);
    lease := r.value;
    var answer := lease.Grow(0);
  }

  lemma {:induction false} DroppedFollows(total: Gauge, owners: map<Owner, Gauge>, was: Hold, total': Gauge, owners': map<Owner, Gauge>)
    requires was.Held? && was.owner in owners
    requires total'.items + was.items == total.items && total'.bytes + was.bytes == total.bytes
    requires was.items <= owners[was.owner].items && was.bytes <= owners[was.owner].bytes
    requires var left := Gauge(owners[was.owner].items - was.items, owners[was.owner].bytes - was.bytes);
             owners' == if left == ZERO then owners - {was.owner} else owners[was.owner := left]
    ensures Follows(total, owners, was, None, total', owners')
  {
  }

  lemma {:induction false} ShrunkFollows(total: Gauge, owners: map<Owner, Gauge>, was: Hold, less: nat, total': Gauge, owners': map<Owner, Gauge>)
    requires was.Held? && was.owner in owners && less <= was.bytes
    requires total'.items == total.items && total'.bytes + less == total.bytes
    requires less <= owners[was.owner].bytes && owners' == owners[was.owner := owners[was.owner].(bytes := owners[was.owner].bytes - less)]
    ensures Follows(total, owners, was, was.(bytes := was.bytes - less), total', owners')
  {
  }

  /** If something of an owner's gauge is left after a drop, another of its leases is live. */
  lemma {:induction false} StillHeld(limits: Limits, total: Gauge, owners: map<Owner, Gauge>, book: Book, i: nat)
    requires Balanced(limits, total, owners, book) && i < |book| && book[i].Held?
    ensures Shown(owners, book[i].owner) != Gauge(book[i].items, book[i].bytes) ==> HasLease(book[i := None], book[i].owner)
  {
    var owner := book[i].owner;
    OwnUpdate(book, i, None, owner);
    if !HasLease(book[i := None], owner) {
      NothingOf(book[i := None], owner);
    }
  }
}
