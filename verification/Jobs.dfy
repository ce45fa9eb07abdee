/** Jobs: one lease on input and one on results, admitted together or not at all. */
module Jobs {
  import opened Ledger
  import opened Admission

  const ISIZE_MAX: nat := 0x7FFF_FFFF_FFFF_FFFF

  datatype AsyncPolicy = AsyncPolicy(
    jobsGlobal: nat, jobsPerOwner: nat, inputBytes: nat, ownerInputBytes: nat, completionBytes: nat, failureBytes: nat,
    socketsGlobal: nat, socketsPerOwner: nat, sqliteGlobal: nat, sqlitePerOwner: nat, poolsGlobal: nat, poolsPerOwner: nat,
    socketOutItems: nat, socketOutBytes: nat, outboundBytes: nat, inboundItems: nat, inboundBytes: nat,
    timersGlobal: nat, timersPerOwner: nat, workerQueueItems: nat, sqliteQueueItems: nat, httpBodyBytes: nat,
    inputItemBytes: nat, dbResultRows: nat, dbResultBytes: nat, cookieVersions: nat, cookieBytes: nat, cookieWriteBytes: nat,
    frameItems: nat, frameBytes: nat, framePollItems: nat, frameSoftUs: nat, loaderValid: bool)
  {
    function Sizes(): seq<nat> {
      [jobsGlobal, jobsPerOwner, inputBytes, ownerInputBytes, completionBytes, failureBytes,
       socketsGlobal, socketsPerOwner, sqliteGlobal, sqlitePerOwner, poolsGlobal, poolsPerOwner,
       socketOutItems, socketOutBytes, outboundBytes, inboundItems, inboundBytes,
       timersGlobal, timersPerOwner, workerQueueItems, sqliteQueueItems, httpBodyBytes,
       inputItemBytes, dbResultRows, dbResultBytes, cookieVersions, cookieBytes, cookieWriteBytes,
       frameItems, frameBytes, framePollItems]
    }

    predicate Validate() {
      && failureBytes >= 256
      && (forall i | 0 <= i < |Sizes()| :: 0 < Sizes()[i] <= ISIZE_MAX / 16)
      && frameSoftUs > 0
      && jobsPerOwner <= jobsGlobal
      && ownerInputBytes <= inputBytes
      && socketsPerOwner <= socketsGlobal
      && sqlitePerOwner <= sqliteGlobal
      && poolsPerOwner <= poolsGlobal
      && timersPerOwner <= timersGlobal
      && inputItemBytes <= ownerInputBytes
      && cookieWriteBytes <= cookieBytes
      && jobsGlobal * failureBytes <= U64_MAX && jobsGlobal * failureBytes <= completionBytes
      && socketOutBytes <= outboundBytes
      && loaderValid
    }
  }

  class CancelHandle {
    var cancelled: bool

    constructor ()
      ensures !cancelled
    {
      cancelled := false;
    }

    method Cancel()
      modifies this
      ensures cancelled
    {
      cancelled := true;
    }
  }

  /** The result leases have exactly their failure reservation. */
  ghost predicate NoneAbove(book: Book, reservation: nat) {
    forall i | 0 <= i < |book| && book[i].Held? :: book[i].bytes == reservation
  }

  class Domain {
    const policy: AsyncPolicy
    const jobs: Budget
    const results: Budget

    ghost predicate Valid()
      reads jobs`total, jobs`owners, jobs`book, results`total, results`owners, results`book
    {
      && policy.Validate() && jobs != results
      && jobs.limits == Limits(policy.jobsGlobal, policy.inputBytes, policy.jobsPerOwner, policy.ownerInputBytes)
      && results.limits == Limits(policy.jobsGlobal, policy.completionBytes, policy.jobsGlobal, policy.completionBytes)
      && jobs.Valid() && results.Valid()
      && jobs.total.items == results.total.items
      && Singles(jobs.book, 0, policy.inputItemBytes)
      && Singles(results.book, policy.failureBytes, policy.completionBytes)
    }

    constructor (policy: AsyncPolicy)
      requires policy.Validate()
      ensures Valid() && this.policy == policy && fresh(jobs) && fresh(results)
      ensures jobs.total == ZERO && results.total == ZERO && jobs.book == [] && results.book == []
    {
      this.policy := policy;
      jobs := new Budget(Limits(policy.jobsGlobal, policy.inputBytes, policy.jobsPerOwner, policy.ownerInputBytes));
      results := new Budget(Limits(policy.jobsGlobal, policy.completionBytes, policy.jobsGlobal, policy.completionBytes));
    }

    /** Everything the result budget can object to is bytes above the reservations. */
    lemma {:induction false} ResultRoom()
      requires Valid() && jobs.total.items < policy.jobsGlobal
      ensures Fits(results.limits, results.total, Shown(results.owners, Host), 1, policy.failureBytes)
              <==> results.total.bytes + policy.failureBytes <= policy.completionBytes
      ensures NoneAbove(results.book, policy.failureBytes) ==> results.total.bytes + policy.failureBytes <= policy.completionBytes
      ensures Possible(results.limits, 1, policy.failureBytes)
    {
      RoomFor(policy, results.total.items);
      RoomFor(policy, 0);
      hide AsyncPolicy.Validate, Balanced, Singles, NoneAbove;
      OwnWithinTotal(results.limits, results.total, results.owners, results.book, Host);
      if NoneAbove(results.book, policy.failureBytes) {
        ReservedSums(results.book, policy.failureBytes, policy.completionBytes);
        TotalIsSum(results.limits, results.total, results.owners, results.book);
      }
    }

    /** With an input lease just granted: the result lease, or the input lease given back. */
    method Complete(owner: Owner, input: Lease) returns (r: Result<JobLease>)
      requires jobs != results && jobs.Valid() && results.Valid()
      requires input.budget == jobs && input.Live() && input.items == 1 && input.owner == owner
      modifies jobs, results
      ensures jobs.Valid() && results.Valid()
      ensures r.Ok? <==> Fits(results.limits, old(results.total), Shown(old(results.owners), Host), 1, policy.failureBytes)
      ensures r.Ok? ==> fresh(r.value) && r.value.domain == this && r.value.input == input && fresh(r.value.result) && fresh(r.value.cancel)
                        && r.value.result.ticket == |old(results.book)|
                        && r.value.Valid() && r.value.result.bytes == policy.failureBytes && !r.value.cancel.cancelled
                        && results.total == Add(old(results.total), 1, policy.failureBytes)
                        && results.book == old(results.book) + [Held(Host, 1, policy.failureBytes)]
                        && jobs.total == old(jobs.total) && jobs.book == old(jobs.book)
      ensures r.Err? ==> r.error == if Possible(results.limits, 1, policy.failureBytes) then QueueFull else PayloadTooLarge
      ensures r.Err? ==> results.total == old(results.total) && results.owners == old(results.owners) && results.book == old(results.book)
                         && owner in old(jobs.owners) && jobs.book == old(jobs.book)[input.ticket := None]
                         && jobs.total == Gauge(SaturatingSub(old(jobs.total).items, 1), SaturatingSub(old(jobs.total).bytes, input.bytes))
                         && var own := old(jobs.owners)[owner];
                            jobs.owners == if own == Gauge(1, input.bytes) then old(jobs.owners) - {owner}
                                           else old(jobs.owners)[owner := Gauge(SaturatingSub(own.items, 1), SaturatingSub(own.bytes, input.bytes))]
    {
      hide Balanced, Fits, Possible;
      input.Entered();
      var result := results.Acquire(Host, 1, policy.failureBytes);
      if result.Err? {
        input.Drop();
        return Err(result.error);
      }
      var cancel := new CancelHandle();
      var job := new JobLease(this, input, result.value, cancel);
      r := Ok(job);
    }

    /** All or nothing: a refused job leaves both budgets as they were. With the input admitted, only result bytes above
        the reservations of live jobs can refuse it. */
    method Job(owner: Owner, bytes: nat) returns (r: Result<JobLease>)
      requires Valid()
      modifies jobs, results
      ensures r.Ok? <==>
              && bytes <= policy.inputItemBytes
              && Fits(jobs.limits, old(jobs.total), Shown(old(jobs.owners), owner), 1, bytes)
              && old(results.total).bytes + policy.failureBytes <= policy.completionBytes
      ensures r.Ok? ==> fresh(r.value) && r.value.Fresh(this, owner, bytes) && r.value.Valid()
      ensures r.Ok? ==> fresh(r.value.input) && fresh(r.value.result) && fresh(r.value.cancel)
                        && r.value.input.ticket == |old(jobs.book)| && r.value.result.ticket == |old(results.book)|
                        && jobs.book == old(jobs.book) + [Held(owner, 1, bytes)]
                        && results.book == old(results.book) + [Held(Host, 1, policy.failureBytes)]
      ensures r.Err? ==>
                jobs.book == if bytes <= policy.inputItemBytes && Fits(jobs.limits, old(jobs.total), Shown(old(jobs.owners), owner), 1, bytes)
                             then old(jobs.book) + [None] else old(jobs.book)
      ensures r.Err? ==> jobs.total == old(jobs.total) && jobs.owners == old(jobs.owners)
                         && results.total == old(results.total) && results.owners == old(results.owners) && results.book == old(results.book)
      ensures r.Err? ==> r.error == if bytes > policy.inputItemBytes || !Possible(jobs.limits, 1, bytes) then PayloadTooLarge else QueueFull
      ensures Valid()
    {
      hide Balanced, AsyncPolicy.Validate, Singles, NoneAbove, SaturatingSub, Possible;
      if jobs.total.items < policy.jobsGlobal {
        ResultRoom();
      }
      if owner in jobs.owners {
        EntryHasItem(jobs.limits, jobs.total, jobs.owners, jobs.book, owner, 0, policy.inputItemBytes);
      }
      FittingIsPossible(jobs.limits, jobs.total, Shown(jobs.owners, owner), 1, bytes);
      Undone(jobs.owners, owner, bytes);
      UndoneTotal(jobs.total, bytes);
      BookGrows(jobs.book, Held(owner, 1, bytes), 0, policy.inputItemBytes);
      BookGrows(results.book, Held(Host, 1, policy.failureBytes), policy.failureBytes, policy.completionBytes);
      if bytes > policy.inputItemBytes {
        return Err(PayloadTooLarge);
      }
      var input := jobs.Acquire(owner, 1, bytes);
      if input.Err? {
        return Err(input.error);
      }
      r := Complete(owner, input.value);
    }

    /** While no live result is above its failure reservation, a job that passes the input budget is admitted. */
    lemma {:induction false} NeverRefusedByResults(owner: Owner, bytes: nat)
      requires Valid() && NoneAbove(results.book, policy.failureBytes)
      requires Fits(jobs.limits, jobs.total, Shown(jobs.owners, owner), 1, bytes)
      ensures results.total.bytes + policy.failureBytes <= policy.completionBytes
    {
      ResultRoom();
    }
  }

  /** A validated policy has room for every job's failure. */
  lemma {:induction false} RoomFor(p: AsyncPolicy, n: nat)
    requires p.Validate() && n < p.jobsGlobal
    ensures p.failureBytes * n + p.failureBytes <= p.completionBytes
  {
    Scaled(p.failureBytes, n + 1, p.jobsGlobal);
    assert p.failureBytes * (n + 1) == p.failureBytes * n + p.failureBytes;
  }

  lemma {:induction false} Scaled(k: nat, a: nat, b: nat)
    requires a <= b
    ensures k * a <= b * k
  {
  }

  lemma {:induction false} ReservedSums(book: Book, least: nat, most: nat)
    requires Singles(book, least, most) && NoneAbove(book, least)
    ensures Bytes(book) == least * Items(book)
  {
    SinglesSums(book, least, least);
  }

  lemma {:induction false} TotalIsSum(limits: Limits, total: Gauge, owners: map<Owner, Gauge>, book: Book)
    requires Balanced(limits, total, owners, book)
    ensures total == Gauge(Items(book), Bytes(book))
  {
  }

  lemma {:induction false} Undone(owners: map<Owner, Gauge>, owner: Owner, bytes: nat)
    requires owner in owners ==> owners[owner].items > 0
    ensures var own := Add(Shown(owners, owner), 1, bytes);
            (if own == Gauge(1, bytes) then owners[owner := own] - {owner}
             else owners[owner := own][owner := Gauge(SaturatingSub(own.items, 1), SaturatingSub(own.bytes, bytes))]) == owners
  {
  }

  lemma {:induction false} UndoneTotal(g: Gauge, bytes: nat)
    ensures var more := Add(g, 1, bytes); Gauge(SaturatingSub(more.items, 1), SaturatingSub(more.bytes, bytes)) == g
  {
  }

  /** A grant, and a grant taken back. */
  lemma {:induction false} BookGrows(book: Book, h: Hold, least: nat, most: nat)
    requires Singles(book, least, most) && h.Held? && h.items == 1
    ensures least <= h.bytes <= most ==> Singles(book + [h], least, most)
    ensures Singles((book + [h])[|book| := None], least, most)
  {
  }

  class JobLease {
    const domain: Domain
    const input: Lease
    const result: Lease
    const cancel: CancelHandle

    ghost predicate Fresh(domain: Domain, owner: Owner, bytes: nat)
      reads input, result, cancel
    {
      this.domain == domain && input.owner == owner && input.bytes == bytes && result.bytes == domain.policy.failureBytes && !cancel.cancelled
    }

    ghost predicate Valid()
      reads input, result, domain.jobs`book, domain.results`book
    {
      && input != result && input.budget == domain.jobs && result.budget == domain.results
      && input.Live() && result.Live() && result.owner == Host
    }

    constructor (domain: Domain, input: Lease, result: Lease, cancel: CancelHandle)
      ensures this.domain == domain && this.input == input && this.result == result && this.cancel == cancel
    {
      this.domain, this.input, this.result, this.cancel := domain, input, result, cancel;
    }

    ghost predicate Ready()
      reads this, input, result, domain.jobs, domain.results
    {
      domain.Valid() && Valid()
    }

    /** A live job keeps at least its failure reservation, and its input is within the item limit. */
    lemma {:induction false} Bounds()
      requires Ready()
      ensures input.items == 1 && result.items == 1
      ensures domain.policy.failureBytes <= result.bytes <= domain.policy.completionBytes
      ensures input.bytes <= domain.policy.inputItemBytes
      ensures input.owner in domain.jobs.owners && result.owner in domain.results.owners
    {
      input.Entered();
      result.Entered();
    }

    method Grow(amount: nat) returns (answer: Answer)
      requires Ready()
      modifies result`bytes, domain.results
      ensures Ready()
      ensures cancel.cancelled ==> answer == Refused(Cancelled)
      ensures answer == Admitted <==> !cancel.cancelled && old(domain.results.total).bytes + amount <= domain.policy.completionBytes
      ensures answer != Admitted && !cancel.cancelled ==>
                answer == Refused(if amount <= domain.policy.completionBytes then QueueFull else PayloadTooLarge)
      ensures result.bytes == old(result.bytes) + if answer == Admitted then amount else 0
      ensures domain.results.total == Add(old(domain.results.total), 0, if answer == Admitted then amount else 0)
      ensures domain.results.book == if answer == Admitted
              then old(domain.results.book)[result.ticket := Held(Host, 1, result.bytes)] + [None] else old(domain.results.book)
    {
      hide AsyncPolicy.Validate, Balanced, Singles;
      if cancel.cancelled {
        return Refused(Cancelled);
      }
      Bounds();
      Policy();
      OwnWithinTotal(domain.results.limits, domain.results.total, domain.results.owners, domain.results.book, Host);
      domain.results.WithinLimits(Host);
      answer := result.Grow(amount);
      result.Entered();
      domain.results.WithinLimits(Host);
      BookChanged(old(domain.results.book), result.ticket, result.bytes, domain.policy.failureBytes, domain.policy.completionBytes);
    }

    lemma {:induction false} Policy()
      requires domain.Valid()
      ensures domain.policy.failureBytes <= domain.policy.completionBytes && domain.policy.inputItemBytes <= domain.policy.inputBytes
      ensures domain.jobs.total.items == domain.results.total.items
    {
      assert domain.policy.Sizes()[0] > 0;
      RoomFor(domain.policy, 0);
    }

    /** The item limit is checked before the budget is asked. */
    method InputGrow(amount: nat) returns (answer: Answer)
      requires Ready()
      modifies input`bytes, domain.jobs
      ensures Ready()
      ensures old(input.bytes) + amount > domain.policy.inputItemBytes ==> answer == Refused(PayloadTooLarge)
      ensures answer == Admitted <==>
              && old(input.bytes) + amount <= domain.policy.inputItemBytes
              && Fits(domain.jobs.limits, old(domain.jobs.total), Shown(old(domain.jobs.owners), input.owner), 0, amount)
      ensures answer != Admitted && old(input.bytes) + amount <= domain.policy.inputItemBytes ==>
                answer == Refused(if Possible(domain.jobs.limits, 0, amount) then QueueFull else PayloadTooLarge)
      ensures input.bytes == old(input.bytes) + if answer == Admitted then amount else 0
      ensures domain.jobs.book == if answer == Admitted
              then old(domain.jobs.book)[input.ticket := Held(input.owner, 1, input.bytes)] + [None] else old(domain.jobs.book)
    {
      hide AsyncPolicy.Validate, Balanced, Singles;
      Bounds();
      Policy();
      if amount > SaturatingSub(domain.policy.inputItemBytes, input.bytes) {
        return Refused(PayloadTooLarge);
      }
      answer := input.Grow(amount);
      BookChanged(old(domain.jobs.book), input.ticket, input.bytes, 0, domain.policy.inputItemBytes);
    }

    /** Back to the failure reservation exactly. */
    method DiscardResult()
      requires Ready()
      modifies result`bytes, domain.results`total, domain.results`owners, domain.results`book
      ensures Ready()
      ensures result.bytes == domain.policy.failureBytes
      ensures domain.results.book == old(domain.results.book)[result.ticket := Held(Host, 1, domain.policy.failureBytes)]
    {
      hide AsyncPolicy.Validate, Balanced, Singles;
      Bounds();
      Policy();
      result.Shrink(SaturatingSub(result.bytes, domain.policy.failureBytes));
      BookChanged(old(domain.results.book), result.ticket, result.bytes, domain.policy.failureBytes, domain.policy.completionBytes);
    }

    /** Both leases go together. */
    method Drop()
      requires Ready()
      modifies domain.jobs`total, domain.jobs`owners, domain.jobs`book, domain.results`total, domain.results`owners, domain.results`book
      ensures domain.Valid()
      ensures domain.jobs.book == old(domain.jobs.book)[input.ticket := None]
      ensures domain.results.book == old(domain.results.book)[result.ticket := None]
    {
      hide AsyncPolicy.Validate, Balanced, Singles;
      Bounds();
      BookDropped(domain.jobs.book, input.ticket, 0, domain.policy.inputItemBytes);
      BookDropped(domain.results.book, result.ticket, domain.policy.failureBytes, domain.policy.completionBytes);
      input.Entered();
      result.Entered();
      input.Drop();
      result.Drop();
    }
  }

  lemma {:induction false} BookChanged(book: Book, i: nat, bytes: nat, least: nat, most: nat)
    requires Singles(book, least, most) && i < |book| && book[i].Held? && least <= bytes <= most
    ensures Singles(book[i := Held(book[i].owner, 1, bytes)], least, most)
    ensures Singles(book[i := Held(book[i].owner, 1, bytes)] + [None], least, most)
  {
  }

  lemma {:induction false} BookDropped(book: Book, i: nat, least: nat, most: nat)
    requires Singles(book, least, most) && i < |book|
    ensures Singles(book[i := None], least, most)
  {
  }
}
