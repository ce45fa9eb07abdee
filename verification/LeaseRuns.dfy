/** Any run of acquisitions, growth, shrinking and drops over one budget, on the real leases: the gauges kept up to date answer
    as sums over the live leases would. */
module LeaseRuns {
  import opened Ledger
  import opened Admission

  datatype LeaseOp =
    | Acquire(owner: Owner, items: nat, bytes: nat)
    | Grow(ticket: nat, bytes: nat)
    | Shrink(ticket: nat, bytes: nat)
    | Drop(ticket: nat)

  datatype Reply = Granted(ticket: nat) | Denied(error: AdmissionError) | Done | NoLease

  // ---- what the answers mean ----

  ghost predicate LiveAt(book: Book, ticket: nat) {
    ticket < |book| && book[ticket].Held?
  }

  /** Admission by adding up the live leases. */
  ghost predicate Admits(limits: Limits, book: Book, owner: Owner, items: nat, bytes: nat) {
    Fits(limits, Sums(book), SumsOf(book, owner), items, bytes)
  }

  /** Too large exactly if an empty budget would refuse it too. */
  ghost function Denial(limits: Limits, owner: Owner, items: nat, bytes: nat): Reply {
    Denied(if Admits(limits, [], owner, items, bytes) then QueueFull else PayloadTooLarge)
  }

  ghost function Applied(limits: Limits, book: Book, op: LeaseOp): (Book, Reply) {
    match op
    case Acquire(owner, items, bytes) =>
      if Admits(limits, book, owner, items, bytes) then (book + [Held(owner, items, bytes)], Granted(|book|))
      else (book, Denial(limits, owner, items, bytes))
    case Grow(ticket, amount) =>
      if !LiveAt(book, ticket) then (book, NoLease)
      else if Admits(limits, book, book[ticket].owner, 0, amount)
      then (book[ticket := book[ticket].(bytes := book[ticket].bytes + amount)] + [None], Done)
      else (book, Denial(limits, book[ticket].owner, 0, amount))
    case Shrink(ticket, amount) =>
      if !LiveAt(book, ticket) then (book, NoLease)
      else (book[ticket := book[ticket].(bytes := SaturatingSub(book[ticket].bytes, amount))], Done)
    case Drop(ticket) =>
      if !LiveAt(book, ticket) then (book, NoLease) else (book[ticket := None], Done)
  }

  ghost function Replies(limits: Limits, book: Book, ops: seq<LeaseOp>): (r: seq<Reply>)
    ensures |r| == |ops|
    decreases |ops|
  {
    if ops == [] then [] else
      [Applied(limits, book, ops[0]).1] + Replies(limits, Applied(limits, book, ops[0]).0, ops[1..])
  }

  ghost function BookAfter(limits: Limits, book: Book, ops: seq<LeaseOp>): Book
    decreases |ops|
  {
    if ops == [] then book else BookAfter(limits, Applied(limits, book, ops[0]).0, ops[1..])
  }

  /** Which acquisitions are granted, and which growth: those with room by the live leases. */
  lemma {:induction false} GrantedExactly(limits: Limits, book: Book, op: LeaseOp)
    ensures op.Acquire? ==> (Applied(limits, book, op).1.Granted? <==> WithRoom(limits, book, op.owner, op.items, op.bytes))
    ensures op.Grow? && LiveAt(book, op.ticket) ==> (Applied(limits, book, op).1 == Done <==> WithRoom(limits, book, book[op.ticket].owner, 0, op.bytes))
    ensures Applied(limits, book, op).1 == Denied(PayloadTooLarge) <==>
            || (op.Acquire? && (op.items > limits.items || op.bytes > limits.bytes || op.items > limits.ownerItems || op.bytes > limits.ownerBytes))
            || (op.Grow? && LiveAt(book, op.ticket) && (op.bytes > limits.bytes || op.bytes > limits.ownerBytes))
  {
    hide Items, Bytes, Of;
    if op.Acquire? {
      EmptySums(op.owner);
    } else if op.Grow? && LiveAt(book, op.ticket) {
      EmptySums(book[op.ticket].owner);
    }
  }

  /** What an operation adds to the sums over the live leases, and what it takes. */
  lemma {:induction false} SumsFollow(limits: Limits, book: Book, op: LeaseOp)
    ensures var (after, reply) := Applied(limits, book, op);
            match op
            case Acquire(_, items, bytes) => Sums(after) == if reply.Granted? then Add(Sums(book), items, bytes) else Sums(book)
            case Grow(_, amount) => Sums(after) == if reply == Done then Add(Sums(book), 0, amount) else Sums(book)
            case Shrink(ticket, amount) =>
              LiveAt(book, ticket) ==>
                && Items(after) == Items(book)
                && Bytes(after) == Bytes(book) - if amount < book[ticket].bytes then amount else book[ticket].bytes
            case Drop(ticket) => LiveAt(book, ticket) ==> Sums(book) == Add(Sums(after), book[ticket].items, book[ticket].bytes)
  {
    hide Items, Bytes, Of, Admits;
    var after := Applied(limits, book, op).0;
    match op
    case Acquire(owner, items, bytes) => SumsAppend(book, Held(owner, items, bytes));
    case Grow(ticket, amount) =>
      if LiveAt(book, ticket) {
        var h := book[ticket].(bytes := book[ticket].bytes + amount);
        SumsUpdate(book, ticket, h);
        SumsAppend(book[ticket := h], None);
      }
    case Shrink(ticket, _) =>
      if LiveAt(book, ticket) {
        SumsUpdate(book, ticket, after[ticket]);
      }
    case Drop(ticket) =>
      if LiveAt(book, ticket) {
        SumsUpdate(book, ticket, None);
      }
  }

  lemma {:induction false} EmptySums(owner: Owner)
    ensures Sums([]) == ZERO && SumsOf([], owner) == ZERO
  {
    assert Of([], owner) == [];
  }

  // ---- the real leases ----

  /** `live` has exactly the live leases, by ticket, and `next` is the next ticket. */
  ghost predicate Tracked(budget: Budget, live: map<nat, Lease>, next: nat)
    reads budget`total, budget`owners, budget`book, live.Values
  {
    && budget.Valid() && WithItems(budget.book) && next == |budget.book|
    && (forall t :: t in live <==> LiveAt(budget.book, t))
    && (forall t | t in live :: live[t].budget == budget && live[t].ticket == t && live[t].Live())
  }

  lemma {:induction false} GaugesAreSums(budget: Budget, owner: Owner)
    requires budget.Valid()
    ensures budget.total == Sums(budget.book) && Shown(budget.owners, owner) == SumsOf(budget.book, owner)
  {
  }

  /** Every look-up of the operation succeeds, and its answer is that of the sums. */
  method Perform(budget: Budget, live: map<nat, Lease>, next: nat, op: LeaseOp) returns (live': map<nat, Lease>, next': nat, reply: Reply)
    requires Tracked(budget, live, next) && (op.Acquire? ==> op.items >= 1)
    modifies budget, live.Values
    ensures Tracked(budget, live', next') && fresh(live'.Values - live.Values)
    ensures (budget.book, reply) == Applied(budget.limits, old(budget.book), op)
  {
    hide Balanced, Sums, SumsOf, Fits, Possible;
    live', next', reply := live, next, NoLease;
    match op {
      case Acquire(owner, items, bytes) =>
        live', next', reply := Start(budget, live, next, owner, items, bytes);
      case Grow(ticket, amount) =>
        if ticket in live {
          next', reply := Enlarge(budget, live, next, ticket, amount);
        }
      case Shrink(ticket, amount) =>
        if ticket in live {
          live[ticket].Entered();
          live[ticket].Shrink(amount);
          reply := Done;
        }
      case Drop(ticket) =>
        if ticket in live {
          live[ticket].Entered();
          live[ticket].Drop();
          live', reply := live - {ticket}, Done;
        }
    }
  }

  method Enlarge(budget: Budget, live: map<nat, Lease>, next: nat, ticket: nat, amount: nat) returns (next': nat, reply: Reply)
    requires Tracked(budget, live, next) && ticket in live
    modifies budget, live[ticket]
    ensures Tracked(budget, live, next')
    ensures (budget.book, reply) == Applied(budget.limits, old(budget.book), Grow(ticket, amount))
  {
    hide Balanced, Sums, SumsOf, Fits, Possible;
    AdmissionBySums(budget, live[ticket].owner, 0, amount);
    next' := next;
    var answer := live[ticket].Grow(amount);
    if answer == Admitted {
      next', reply := next + 1, Done;
    } else {
      reply := Denied(answer.error);
    }
  }

  lemma {:induction false} AdmissionBySums(budget: Budget, owner: Owner, items: nat, bytes: nat)
    requires budget.Valid()
    ensures Fits(budget.limits, budget.total, Shown(budget.owners, owner), items, bytes) <==> Admits(budget.limits, budget.book, owner, items, bytes)
    ensures Denial(budget.limits, owner, items, bytes) == Denied(if Possible(budget.limits, items, bytes) then QueueFull else PayloadTooLarge)
  {
    GaugesAreSums(budget, owner);
    EmptySums(owner);
  }

  method Start(budget: Budget, live: map<nat, Lease>, next: nat, owner: Owner, items: nat, bytes: nat)
    returns (live': map<nat, Lease>, next': nat, reply: Reply)
    requires Tracked(budget, live, next) && items >= 1
    modifies budget
    ensures Tracked(budget, live', next') && fresh(live'.Values - live.Values)
    ensures (budget.book, reply) == Applied(budget.limits, old(budget.book), Acquire(owner, items, bytes))
  {
    hide Balanced, Sums, SumsOf, Fits, Possible;
    live', next' := live, next;
    AdmissionBySums(budget, owner, items, bytes);
    var r := budget.Acquire(owner, items, bytes);
    if r.Err? {
      return live, next, Denied(r.error);
    }
    live' := live[next := r.value];
    assert forall t | t in live :: live'[t] == live[t] && t != next;
    next', reply := next + 1, Granted(next);
  }

  /** From an empty budget: the answers and the live leases of any run are those of admission by adding up the live leases,
      and the owner table has exactly the owners of live leases. */
  method Run(limits: Limits, ops: seq<LeaseOp>) returns (budget: Budget, live: map<nat, Lease>, replies: seq<Reply>)
    requires forall k | 0 <= k < |ops| && ops[k].Acquire? :: ops[k].items >= 1
    ensures budget.Valid() && budget.limits == limits
    ensures replies == Replies(limits, [], ops) && budget.book == BookAfter(limits, [], ops)
    ensures budget.total == Sums(budget.book)
    ensures forall t :: t in live <==> LiveAt(budget.book, t)
    ensures forall t | t in live :: t < |budget.book| && budget.book[t] == Held(live[t].owner, live[t].items, live[t].bytes)
    ensures forall owner :: Shown(budget.owners, owner) == SumsOf(budget.book, owner)
                            && (owner in budget.owners <==> exists t :: t in live && live[t].owner == owner)
  {
    hide Applied, Balanced, Sums, SumsOf, HasLease;
    budget := new Budget(limits);
    live, replies := map[], [];
    var next := 0;
    for k := 0 to |ops|
      invariant Tracked(budget, live, next) && fresh(budget) && fresh(live.Values) && budget.limits == limits
      invariant replies + Replies(limits, budget.book, ops[k..]) == Replies(limits, [], ops)
      invariant BookAfter(limits, budget.book, ops[k..]) == BookAfter(limits, [], ops)
    {
      var reply;
      live, next, reply := Perform(budget, live, next, ops[k]);
      assert ops[k..][0] == ops[k] && ops[k..][1..] == ops[k + 1..];
      replies := replies + [reply];
    }
    GaugesAreSums(budget, Host);
    forall owner ensures Shown(budget.owners, owner) == SumsOf(budget.book, owner)
                         && (owner in budget.owners <==> exists t :: t in live && live[t].owner == owner) {
      GaugesAreSums(budget, owner);
      EntryIffLease(limits, budget.total, budget.owners, budget.book, owner);
      Holders(budget, live, next, owner);
    }
  }

  lemma {:induction false} Holders(budget: Budget, live: map<nat, Lease>, next: nat, owner: Owner)
    requires Tracked(budget, live, next)
    ensures HasLease(budget.book, owner) <==> exists t :: t in live && live[t].owner == owner
  {
    hide Balanced;
    if HasLease(budget.book, owner) {
      var i :| 0 <= i < |budget.book| && budget.book[i].Held? && budget.book[i].owner == owner;
      assert LiveAt(budget.book, i) && live[i].owner == owner;
    }
  }

  // ---- leases without an item ----

  /** What a lease does by itself while it is live. */
  datatype OwnOp = More(bytes: nat) | Less(bytes: nat)

  /** Whether a lease alone in its budget, of `items` and `bytes`, has its owner's entry at every point of a run. The entry
      goes when growing leaves nothing of the owner; giving back bytes leaves it. */
  predicate Keeps(limits: Limits, items: nat, bytes: nat, ops: seq<OwnOp>)
    decreases |ops|
  {
    ops == [] ||
    match ops[0]
    case Less(amount) => Keeps(limits, items, SaturatingSub(bytes, amount), ops[1..])
    case More(amount) =>
      if bytes + amount > limits.bytes || bytes + amount > limits.ownerBytes then Keeps(limits, items, bytes, ops[1..])
      else (items > 0 || bytes + amount > 0) && Keeps(limits, items, bytes + amount, ops[1..])
  }

  /** Whatever the limits: a lease keeps its owner's entry through all runs of its own exactly if it has an item. */
  lemma {:induction false} KeptExactly(limits: Limits, items: nat, bytes: nat)
    ensures (forall ops: seq<OwnOp> :: Keeps(limits, items, bytes, ops)) <==> items >= 1
  {
    hide Keeps;
    if items >= 1 {
      forall ops: seq<OwnOp> ensures Keeps(limits, items, bytes, ops) {
        ItemKeeps(limits, items, bytes, ops);
      }
    } else {
      var ops := Loses(limits, bytes);
      assert !Keeps(limits, items, bytes, ops);
    }
  }

  /** Giving back every byte, then growing by none. */
  lemma {:induction false} Loses(limits: Limits, bytes: nat) returns (ops: seq<OwnOp>)
    ensures !Keeps(limits, 0, bytes, ops)
  {
    ops := [Less(bytes), More(0)];
    assert ops[1..] == [More(0)];
    assert !Keeps(limits, 0, 0, [More(0)]);
  }

  lemma {:induction false} ItemKeeps(limits: Limits, items: nat, bytes: nat, ops: seq<OwnOp>)
    requires items >= 1
    ensures Keeps(limits, items, bytes, ops)
    decreases |ops|
  {
    if ops != [] {
      match ops[0]
      case Less(amount) => ItemKeeps(limits, items, SaturatingSub(bytes, amount), ops[1..]);
      case More(amount) =>
        ItemKeeps(limits, items, bytes, ops[1..]);
        ItemKeeps(limits, items, bytes + amount, ops[1..]);
    }
  }

  lemma {:induction false} KeepsNext(limits: Limits, items: nat, bytes: nat, ops: seq<OwnOp>, n: nat)
    requires n < |ops|
    ensures Keeps(limits, items, bytes, ops[n..]) <==>
            match ops[n]
            case Less(amount) => Keeps(limits, items, SaturatingSub(bytes, amount), ops[n + 1..])
            case More(amount) =>
              if bytes + amount > limits.bytes || bytes + amount > limits.ownerBytes then Keeps(limits, items, bytes, ops[n + 1..])
              else (items > 0 || bytes + amount > 0) && Keeps(limits, items, bytes + amount, ops[n + 1..])
  {
    assert ops[n..][0] == ops[n] && ops[n..][1..] == ops[n + 1..];
  }

  /** The real lease, granted by an empty budget, until its owner's entry is gone. */
  method RunOwn(limits: Limits, owner: Owner, items: nat, bytes: nat, ops: seq<OwnOp>) returns (lease: Lease, kept: bool)
    requires Possible(limits, items, bytes)
    ensures lease.budget.limits == limits && lease.budget.Valid() && lease.Live() && lease.owner == owner && lease.items == items
    ensures kept <==> owner in lease.budget.owners
    ensures kept <==> Keeps(limits, items, bytes, ops)
  {
    hide Balanced, Keeps;
    var budget := new Budget(limits);
    var r := budget.Acquire(owner, items, bytes);
    lease := r.value;
    assert ops[0..] == ops;
    for n := 0 to |ops|
      invariant fresh(budget) && fresh(lease) && lease.budget == budget && budget.limits == limits && lease.items == items && lease.owner == owner
      invariant budget.Valid() && lease.Live() && budget.total == Gauge(items, lease.bytes)
      invariant budget.owners == map[owner := Gauge(items, lease.bytes)]
      invariant Keeps(limits, items, lease.bytes, ops[n..]) <==> Keeps(limits, items, bytes, ops)
    {
      budget.WithinLimits(owner);
      KeepsNext(limits, items, lease.bytes, ops, n);
      match ops[n] {
        case Less(amount) =>
          lease.Shrink(amount);
        case More(amount) =>
          var answer := lease.Grow(amount);
          if owner !in budget.owners {
            return lease, false;
          }
      }
    }
    assert ops[|ops|..] == [] && Keeps(limits, items, lease.bytes, []) by {
      KeepsNone(limits, items, lease.bytes);
    }
    kept := true;
  }

  lemma {:induction false} KeepsNone(limits: Limits, items: nat, bytes: nat)
    ensures Keeps(limits, items, bytes, [])
  {
  }
}
