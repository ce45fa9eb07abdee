/** Any run of admissions, growth, discards, cancellations and drops, on the real leases: both budgets answer as adding up
    the live leases would. */
module JobRuns {
  import opened Ledger
  import opened Admission
  import opened Jobs
  import LeaseRuns

  /** A job is named by how many were started before it. */
  datatype JobOp =
    | Start(owner: Owner, bytes: nat)
    | Grow(job: nat, bytes: nat)
    | InputGrow(job: nat, bytes: nat)
    | Discard(job: nat)
    | Cancel(job: nat)
    | Finish(job: nat)

  datatype Reply = Started(job: nat) | Done | Denied(error: AdmissionError) | NoJob

  // ---- what the answers mean ----

  /** A live job: the tickets of its two leases, and its cancel flag. */
  datatype Job = Job(input: nat, result: nat, cancelled: bool)

  datatype State = State(inputs: Book, results: Book, jobs: map<nat, Job>, started: nat)

  const EMPTY := State([], [], map[], 0)

  function InputLimits(p: AsyncPolicy): Limits {
    Limits(p.jobsGlobal, p.inputBytes, p.jobsPerOwner, p.ownerInputBytes)
  }

  ghost predicate Known(s: State, job: nat) {
    job in s.jobs && LeaseRuns.LiveAt(s.inputs, s.jobs[job].input) && LeaseRuns.LiveAt(s.results, s.jobs[job].result)
  }

  /** Why the input budget refuses: nothing smaller would help, or something must be given back first. */
  ghost function Denial(p: AsyncPolicy, owner: Owner, items: nat, bytes: nat): Reply {
    Denied(if LeaseRuns.Admits(InputLimits(p), [], owner, items, bytes) then QueueFull else PayloadTooLarge)
  }

  /** A job needs its input and its failure reservation, or neither. */
  ghost function StartedJob(p: AsyncPolicy, s: State, owner: Owner, bytes: nat): (State, Reply) {
    if bytes > p.inputItemBytes then (s, Denied(PayloadTooLarge))
    else if !LeaseRuns.Admits(InputLimits(p), s.inputs, owner, 1, bytes) then (s, Denial(p, owner, 1, bytes))
    else if Bytes(s.results) + p.failureBytes > p.completionBytes then (s.(inputs := s.inputs + [None]), Denied(QueueFull))
    else
      (State(s.inputs + [Held(owner, 1, bytes)], s.results + [Held(Host, 1, p.failureBytes)],
             s.jobs[s.started := Job(|s.inputs|, |s.results|, false)], s.started + 1),
       Started(s.started))
  }

  ghost function GrownResult(p: AsyncPolicy, s: State, job: nat, amount: nat): (State, Reply)
    requires Known(s, job)
  {
    var r := s.jobs[job].result;
    if s.jobs[job].cancelled then (s, Denied(Cancelled))
    else if Bytes(s.results) + amount > p.completionBytes
    then (s, Denied(if amount <= p.completionBytes then QueueFull else PayloadTooLarge))
    else (s.(results := s.results[r := Held(Host, 1, s.results[r].bytes + amount)] + [None]), Done)
  }

  ghost function GrownInput(p: AsyncPolicy, s: State, job: nat, amount: nat): (State, Reply)
    requires Known(s, job)
  {
    var h := s.inputs[s.jobs[job].input];
    if h.bytes + amount > p.inputItemBytes then (s, Denied(PayloadTooLarge))
    else if !LeaseRuns.Admits(InputLimits(p), s.inputs, h.owner, 0, amount) then (s, Denial(p, h.owner, 0, amount))
    else (s.(inputs := s.inputs[s.jobs[job].input := Held(h.owner, 1, h.bytes + amount)] + [None]), Done)
  }

  ghost function Finished(s: State, job: nat): State
    requires Known(s, job)
  {
    State(s.inputs[s.jobs[job].input := None], s.results[s.jobs[job].result := None], s.jobs - {job}, s.started)
  }

  ghost function Applied(p: AsyncPolicy, s: State, op: JobOp): (State, Reply) {
    if op.Start? then StartedJob(p, s, op.owner, op.bytes)
    else if !Known(s, op.job) then (s, NoJob)
    else
      match op
      case Grow(job, amount) => GrownResult(p, s, job, amount)
      case InputGrow(job, amount) => GrownInput(p, s, job, amount)
      case Discard(job) => (s.(results := s.results[s.jobs[job].result := Held(Host, 1, p.failureBytes)]), Done)
      case Cancel(job) => (s.(jobs := s.jobs[job := s.jobs[job].(cancelled := true)]), Done)
      case Finish(job) =>
        (Finished(s, job), Done)
  }

  ghost function Replies(p: AsyncPolicy, s: State, ops: seq<JobOp>): (r: seq<Reply>)
    ensures |r| == |ops|
    decreases |ops|
  {
    if ops == [] then [] else [Applied(p, s, ops[0]).1] + Replies(p, Applied(p, s, ops[0]).0, ops[1..])
  }

  ghost function After(p: AsyncPolicy, s: State, ops: seq<JobOp>): State
    decreases |ops|
  {
    if ops == [] then s else After(p, Applied(p, s, ops[0]).0, ops[1..])
  }

  lemma {:induction false} RunNext(p: AsyncPolicy, s: State, ops: seq<JobOp>, n: nat)
    requires n < |ops|
    ensures Replies(p, s, ops[n..]) == [Applied(p, s, ops[n]).1] + Replies(p, Applied(p, s, ops[n]).0, ops[n + 1..])
    ensures After(p, s, ops[n..]) == After(p, Applied(p, s, ops[n]).0, ops[n + 1..])
  {
    assert ops[n..][0] == ops[n] && ops[n..][1..] == ops[n + 1..];
  }

  // ---- what every state keeps ----

  /** Each job has its two live leases, and no two jobs share one. */
  ghost predicate Coupled(s: State) {
    && (forall k | k in s.jobs :: Paired(s, k))
    && (forall a, b | a in s.jobs && b in s.jobs && a != b :: s.jobs[a].input != s.jobs[b].input && s.jobs[a].result != s.jobs[b].result)
  }

  ghost predicate Paired(s: State, k: nat)
    requires k in s.jobs
  {
    k < s.started && Known(s, k) && s.results[s.jobs[k].result].owner == Host
  }

  /** There are as many live leases in each book as there are jobs, one item each; no result is below the failure reservation,
      and no input is above the item limit. */
  ghost predicate Sound(p: AsyncPolicy, s: State) {
    && Coupled(s) && Items(s.inputs) == |s.jobs| == Items(s.results)
    && Singles(s.inputs, 0, p.inputItemBytes) && Singles(s.results, p.failureBytes, p.completionBytes)
  }

  lemma {:induction false} CoupledStart(s: State, input: Hold, result: Hold)
    requires Coupled(s) && input.Held? && result.Held? && result.owner == Host
    ensures Coupled(State(s.inputs + [input], s.results + [result], s.jobs[s.started := Job(|s.inputs|, |s.results|, false)], s.started + 1))
    ensures s.started !in s.jobs
  {
    var after := State(s.inputs + [input], s.results + [result], s.jobs[s.started := Job(|s.inputs|, |s.results|, false)], s.started + 1);
    assert s.started in s.jobs ==> Paired(s, s.started);
    forall k | k in after.jobs ensures Paired(after, k)
      && (k != s.started ==> k in s.jobs && s.jobs[k].input < |s.inputs| && s.jobs[k].result < |s.results|) {
      if k != s.started {
        assert Paired(s, k);
      }
    }
  }

  lemma {:induction false} CoupledLonger(s: State)
    requires Coupled(s)
    ensures Coupled(s.(inputs := s.inputs + [None])) && Coupled(s.(results := s.results + [None]))
  {
    forall k | k in s.jobs ensures Paired(s.(inputs := s.inputs + [None]), k) && Paired(s.(results := s.results + [None]), k) {
      assert Paired(s, k);
    }
  }

  lemma {:induction false} CoupledResult(s: State, job: nat, h: Hold)
    requires Coupled(s) && job in s.jobs && h.Held? && h.owner == Host
    ensures s.jobs[job].result < |s.results| && Coupled(s.(results := s.results[s.jobs[job].result := h]))
  {
    assert Paired(s, job);
    forall k | k in s.jobs ensures Paired(s.(results := s.results[s.jobs[job].result := h]), k) {
      assert Paired(s, k);
    }
  }

  lemma {:induction false} CoupledInput(s: State, job: nat, h: Hold)
    requires Coupled(s) && job in s.jobs && h.Held?
    ensures s.jobs[job].input < |s.inputs| && Coupled(s.(inputs := s.inputs[s.jobs[job].input := h]))
  {
    assert Paired(s, job);
    forall k | k in s.jobs ensures Paired(s.(inputs := s.inputs[s.jobs[job].input := h]), k) {
      assert Paired(s, k);
    }
  }

  lemma {:induction false} CoupledFinish(s: State, job: nat)
    requires Coupled(s) && Known(s, job)
    ensures Coupled(Finished(s, job))
  {
    forall k | k in Finished(s, job).jobs ensures Paired(Finished(s, job), k) {
      assert Paired(s, k);
    }
  }

  lemma {:induction false} SoundStart(p: AsyncPolicy, s: State, owner: Owner, bytes: nat)
    requires Sound(p, s) && p.failureBytes <= p.completionBytes
    ensures Sound(p, StartedJob(p, s, owner, bytes).0)
  {
    hide Coupled, Items, Bytes, LeaseRuns.Admits;
    SumsAppend(s.inputs, Held(owner, 1, bytes));
    SumsAppend(s.inputs, None);
    SumsAppend(s.results, Held(Host, 1, p.failureBytes));
    CoupledStart(s, Held(owner, 1, bytes), Held(Host, 1, p.failureBytes));
    CoupledLonger(s);
  }

  lemma {:induction false} SoundResult(p: AsyncPolicy, s: State, job: nat, h: Hold)
    requires Sound(p, s) && job in s.jobs && h.Held? && h.owner == Host && h.items == 1 && p.failureBytes <= h.bytes <= p.completionBytes
    ensures s.jobs[job].result < |s.results|
    ensures var results := s.results[s.jobs[job].result := h]; Sound(p, s.(results := results)) && Sound(p, s.(results := results + [None]))
  {
    Live(s, job);
    hide Coupled, Items, Bytes;
    CoupledResult(s, job, h);
    CoupledLonger(s.(results := s.results[s.jobs[job].result := h]));
    SumsUpdate(s.results, s.jobs[job].result, h);
    SumsAppend(s.results[s.jobs[job].result := h], None);
  }

  lemma {:induction false} Live(s: State, job: nat)
    requires Coupled(s) && job in s.jobs
    ensures Paired(s, job)
  {
  }

  lemma {:induction false} SoundInput(p: AsyncPolicy, s: State, job: nat, h: Hold)
    requires Sound(p, s) && job in s.jobs && h.Held? && h.items == 1 && h.bytes <= p.inputItemBytes
    ensures s.jobs[job].input < |s.inputs| && Sound(p, s.(inputs := s.inputs[s.jobs[job].input := h] + [None]))
  {
    Live(s, job);
    hide Coupled, Items, Bytes;
    CoupledInput(s, job, h);
    CoupledLonger(s.(inputs := s.inputs[s.jobs[job].input := h]));
    SumsUpdate(s.inputs, s.jobs[job].input, h);
    SumsAppend(s.inputs[s.jobs[job].input := h], None);
  }

  lemma {:induction false} SoundFinish(p: AsyncPolicy, s: State, job: nat)
    requires Sound(p, s) && Known(s, job)
    ensures Sound(p, Finished(s, job))
  {
    hide Coupled, Items, Bytes, Singles;
    Kinds(p, s, job);
    CoupledFinish(s, job);
    BookDropped(s.inputs, s.jobs[job].input, 0, p.inputItemBytes);
    BookDropped(s.results, s.jobs[job].result, p.failureBytes, p.completionBytes);
    SumsUpdate(s.inputs, s.jobs[job].input, None);
    SumsUpdate(s.results, s.jobs[job].result, None);
    OneLess(s.jobs, job);
  }

  lemma {:induction false} OneLess(jobs: map<nat, Job>, job: nat)
    requires job in jobs
    ensures |jobs - {job}| == |jobs| - 1
  {
    assert jobs.Keys == (jobs - {job}).Keys + {job};
    assert |jobs.Keys| == |jobs| && |(jobs - {job}).Keys| == |jobs - {job}|;
  }

  lemma {:induction false} SoundCancel(p: AsyncPolicy, s: State, job: nat)
    requires Sound(p, s) && job in s.jobs
    ensures Sound(p, s.(jobs := s.jobs[job := s.jobs[job].(cancelled := true)]))
  {
    hide Items, Bytes, Singles;
    var after := s.(jobs := s.jobs[job := s.jobs[job].(cancelled := true)]);
    forall k | k in after.jobs ensures Paired(after, k) {
      Live(s, k);
    }
    SameSize(s.jobs, job, after.jobs[job]);
  }

  lemma {:induction false} SameSize(jobs: map<nat, Job>, job: nat, one: Job)
    requires job in jobs
    ensures |jobs[job := one]| == |jobs|
  {
    assert jobs[job := one].Keys == jobs.Keys;
    assert |jobs.Keys| == |jobs| && |jobs[job := one].Keys| == |jobs[job := one]|;
  }

  lemma {:induction false} Kinds(p: AsyncPolicy, s: State, job: nat)
    requires Sound(p, s) && job in s.jobs
    ensures Paired(s, job) && s.inputs[s.jobs[job].input].items == 1 && s.inputs[s.jobs[job].input].bytes <= p.inputItemBytes
    ensures s.results[s.jobs[job].result].items == 1 && p.failureBytes <= s.results[s.jobs[job].result].bytes <= p.completionBytes
  {
  }

  /** Every operation keeps the pairing, the reservations and the item limit. */
  lemma {:induction false} SoundStep(p: AsyncPolicy, s: State, op: JobOp)
    requires Sound(p, s) && p.failureBytes <= p.completionBytes
    ensures Sound(p, Applied(p, s, op).0)
  {
    hide Coupled, Items, Bytes, Singles, StartedJob, LeaseRuns.Admits;
    if op.Start? {
      SoundStart(p, s, op.owner, op.bytes);
    } else if Known(s, op.job) {
      var r := s.jobs[op.job].result;
      Live(s, op.job);
      Kinds(p, s, op.job);
      PartOfSums(s.results, r);
      match op {
        case Start(_, _) =>
        case Grow(job, amount) =>
          if Bytes(s.results) + amount <= p.completionBytes {
            SoundResult(p, s, job, Held(Host, 1, s.results[r].bytes + amount));
          }
        case InputGrow(job, amount) =>
          var h := s.inputs[s.jobs[job].input];
          if h.bytes + amount <= p.inputItemBytes {
            SoundInput(p, s, job, Held(h.owner, 1, h.bytes + amount));
          }
        case Discard(job) => SoundResult(p, s, job, Held(Host, 1, p.failureBytes));
        case Cancel(job) => SoundCancel(p, s, job);
        case Finish(job) => SoundFinish(p, s, job);
      }
    }
  }

  lemma {:induction false} Unshared(s: State, a: nat, b: nat)
    requires Coupled(s) && a in s.jobs && b in s.jobs && a != b
    ensures s.jobs[a].input != s.jobs[b].input && s.jobs[a].result != s.jobs[b].result
  {
  }

  /** An operation on one job leaves both leases and the flag of every other job as they were. */
  lemma {:induction false} OthersKept(p: AsyncPolicy, s: State, op: JobOp, other: nat)
    requires Sound(p, s) && other in s.jobs && (!op.Start? ==> op.job != other)
    ensures var after := Applied(p, s, op).0;
            && other in after.jobs && after.jobs[other] == s.jobs[other]
            && Known(s, other) && Known(after, other)
            && after.inputs[s.jobs[other].input] == s.inputs[s.jobs[other].input]
            && after.results[s.jobs[other].result] == s.results[s.jobs[other].result]
  {
    hide Coupled, Items, Bytes, Singles, LeaseRuns.Admits;
    Live(s, other);
    if !op.Start? && op.job in s.jobs {
      Live(s, op.job);
      Unshared(s, op.job, other);
    }
  }

  /** A job is started exactly if its input is of a size allowed and there is room for it under all four input limits, and for its
      failure among the results; it is too large exactly if no empty domain would take its input. */
  lemma {:induction false} StartsExactly(p: AsyncPolicy, s: State, owner: Owner, bytes: nat)
    requires Sound(p, s)
    ensures var reply := Applied(p, s, Start(owner, bytes)).1;
            && (reply.Started? <==>
                  && bytes <= p.inputItemBytes
                  && |s.jobs| < p.jobsGlobal && Bytes(s.inputs) + bytes <= p.inputBytes
                  && Items(Of(s.inputs, owner)) < p.jobsPerOwner && Bytes(Of(s.inputs, owner)) + bytes <= p.ownerInputBytes
                  && Bytes(s.results) + p.failureBytes <= p.completionBytes)
            && (reply == Denied(PayloadTooLarge) <==>
                  || bytes > p.inputItemBytes || bytes > p.inputBytes || bytes > p.ownerInputBytes
                  || p.jobsGlobal == 0 || p.jobsPerOwner == 0)
  {
    hide Coupled, Items, Bytes, Singles, Of;
    LeaseRuns.EmptySums(owner);
  }

  /** A result grows while its job is not cancelled and there is room among the results; an input while it stays of a size allowed
      and there is room under the input limits. */
  lemma {:induction false} GrowsExactly(p: AsyncPolicy, s: State, job: nat, amount: nat)
    requires Known(s, job)
    ensures var reply := Applied(p, s, Grow(job, amount)).1;
            && (reply == Done <==> !s.jobs[job].cancelled && Bytes(s.results) + amount <= p.completionBytes)
            && (reply == Denied(Cancelled) <==> s.jobs[job].cancelled)
            && (reply == Denied(PayloadTooLarge) <==> !s.jobs[job].cancelled && amount > p.completionBytes)
    ensures var h, reply := s.inputs[s.jobs[job].input], Applied(p, s, InputGrow(job, amount)).1;
            && (reply == Done <==>
                  && h.bytes + amount <= p.inputItemBytes
                  && WithRoom(Limits(p.jobsGlobal, p.inputBytes, p.jobsPerOwner, p.ownerInputBytes), s.inputs, h.owner, 0, amount))
            && (reply == Denied(PayloadTooLarge) <==>
                  h.bytes + amount > p.inputItemBytes || amount > p.inputBytes || amount > p.ownerInputBytes)
  {
    hide Items, Bytes, Of;
    LeaseRuns.EmptySums(s.inputs[s.jobs[job].input].owner);
  }

  // ---- the real jobs ----

  /** The real job of a name is as a state says. */
  ghost predicate Standing(domain: Domain, job: JobLease, name: nat, s: State)
    reads job.input, job.result, job.cancel
  {
    && job.domain == domain && job.input.budget == domain.jobs && job.result.budget == domain.results && job.input != job.result
    && Known(s, name) && s.jobs[name] == Job(job.input.ticket, job.result.ticket, job.cancel.cancelled)
    && s.inputs[job.input.ticket] == Held(job.input.owner, job.input.items, job.input.bytes)
    && s.results[job.result.ticket] == Held(Host, job.result.items, job.result.bytes) && job.result.owner == Host
  }

  ghost predicate Booked(domain: Domain, s: State)
    reads domain.jobs`total, domain.jobs`owners, domain.jobs`book, domain.results`total, domain.results`owners, domain.results`book
  {
    domain.Valid() && s.inputs == domain.jobs.book && s.results == domain.results.book
  }

  ghost predicate Tracked(domain: Domain, live: map<nat, JobLease>, next: nat, s: State)
    reads domain.jobs`total, domain.jobs`owners, domain.jobs`book, domain.results`total, domain.results`owners, domain.results`book
    reads set k | k in live :: live[k].input
    reads set k | k in live :: live[k].result
    reads set k | k in live :: live[k].cancel
  {
    && Booked(domain, s) && Sound(domain.policy, s) && next == s.started
    && (forall k :: k in live <==> k in s.jobs)
    && (forall k | k in live :: Standing(domain, live[k], k, s))
    && (forall a, b | a in live && b in live && a != b :: live[a].cancel != live[b].cancel)
  }

  /** What the two budgets answer is what the sums over the books say. */
  lemma {:induction false} BySums(domain: Domain, s: State, owner: Owner, items: nat, bytes: nat)
    requires Booked(domain, s)
    ensures domain.jobs.limits == InputLimits(domain.policy) && Bytes(s.results) == domain.results.total.bytes
    ensures Fits(domain.jobs.limits, domain.jobs.total, Shown(domain.jobs.owners, owner), items, bytes)
            <==> LeaseRuns.Admits(InputLimits(domain.policy), s.inputs, owner, items, bytes)
    ensures Denial(domain.policy, owner, items, bytes)
            == Denied(if Possible(domain.jobs.limits, items, bytes) then QueueFull else PayloadTooLarge)
  {
    LeaseRuns.AdmissionBySums(domain.jobs, owner, items, bytes);
    TotalIsSum(domain.results.limits, domain.results.total, domain.results.owners, domain.results.book);
  }

  function Told(answer: Answer): Reply {
    if answer == Admitted then Done else Denied(answer.error)
  }

  method OnJob(domain: Domain, job: JobLease, ghost s: State, op: JobOp) returns (reply: Reply)
    requires Booked(domain, s) && !op.Start? && Known(s, op.job) && Standing(domain, job, op.job, s)
    modifies job.input, job.result, job.cancel, domain.jobs, domain.results
    ensures var (after, told) := Applied(domain.policy, s, op);
            reply == told && Booked(domain, after) && (!op.Finish? ==> Standing(domain, job, op.job, after))
  {
    hide Balanced, Singles, AsyncPolicy.Validate, LeaseRuns.Admits, Items, Bytes, Fits, Possible, Denial;
    reply := Done;
    match op {
      case Start(_, _) =>
      case Grow(_, bytes) =>
        BySums(domain, s, Host, 0, bytes);
        var answer := job.Grow(bytes);
        reply := Told(answer);
      case InputGrow(_, bytes) =>
        BySums(domain, s, job.input.owner, 0, bytes);
        var answer := job.InputGrow(bytes);
        reply := Told(answer);
      case Discard(_) => job.DiscardResult();
      case Cancel(_) => job.cancel.Cancel();
      case Finish(_) => job.Drop();
    }
  }

  method Ask(domain: Domain, next: nat, ghost s: State, owner: Owner, bytes: nat) returns (job: JobLease?, reply: Reply)
    requires Booked(domain, s) && next == s.started && next !in s.jobs
    modifies domain.jobs, domain.results
    ensures var (after, told) := StartedJob(domain.policy, s, owner, bytes);
            && reply == told && Booked(domain, after) && (reply.Started? <==> job != null)
            && after.started == next + (if job == null then 0 else 1)
            && (job != null ==> Standing(domain, job, next, after) && fresh(job.input) && fresh(job.result) && fresh(job.cancel))
            && (forall k :: k in after.jobs <==> k in s.jobs || (job != null && k == next))
  {
    hide Balanced, Singles, AsyncPolicy.Validate, LeaseRuns.Admits, Items, Bytes, Fits, Possible, Denial;
    BySums(domain, s, owner, 1, bytes);
    FittingIsPossible(domain.jobs.limits, domain.jobs.total, Shown(domain.jobs.owners, owner), 1, bytes);
    var r := domain.Job(owner, bytes);
    if r.Err? {
      return null, Denied(r.error);
    }
    job, reply := r.value, Started(next);
  }

  /** A job whose entries and flag an operation leaves alone still stands. */
  lemma {:induction false} StandsStill(domain: Domain, job: JobLease, name: nat, s: State, after: State)
    requires Standing(domain, job, name, s) && name in after.jobs && after.jobs[name] == s.jobs[name] && Known(after, name)
    requires after.inputs[s.jobs[name].input] == s.inputs[s.jobs[name].input]
    requires after.results[s.jobs[name].result] == s.results[s.jobs[name].result]
    ensures Standing(domain, job, name, after)
  {
  }

  lemma {:induction false} Separate(domain: Domain, live: map<nat, JobLease>, next: nat, s: State, a: nat, b: nat)
    requires Tracked(domain, live, next, s) && a in live && b in live && a != b
    ensures live[a].input != live[b].input && live[a].result != live[b].result && live[a].cancel != live[b].cancel
    ensures live[a].input != live[b].result && live[a].result != live[b].input
  {
    hide Balanced, Singles, AsyncPolicy.Validate;
    Unshared(s, a, b);
  }

  lemma {:induction false} Reserved(domain: Domain, s: State)
    requires Booked(domain, s)
    ensures domain.policy.failureBytes <= domain.policy.completionBytes
  {
    assert domain.policy.Sizes()[0] > 0;
    RoomFor(domain.policy, 0);
  }

  method Begin(domain: Domain, live: map<nat, JobLease>, next: nat, ghost s: State, owner: Owner, bytes: nat)
    returns (live': map<nat, JobLease>, next': nat, reply: Reply)
    requires Tracked(domain, live, next, s)
    modifies domain.jobs, domain.results
    ensures var (after, told) := Applied(domain.policy, s, Start(owner, bytes));
            reply == told && Tracked(domain, live', next', after)
    ensures forall k | k in live' :: (k in live && live'[k] == live[k])
                                     || (fresh(live'[k].input) && fresh(live'[k].result) && fresh(live'[k].cancel))
  {
    hide Sound, StartedJob, Domain.Valid, Standing, Known;
    ghost var after := Applied(domain.policy, s, Start(owner, bytes)).0;
    NextIsNew(domain.policy, s);
    Reserved(domain, s);
    SoundStep(domain.policy, s, Start(owner, bytes));
    var job;
    job, reply := Ask(domain, next, s, owner, bytes);
    forall k | k in live ensures Standing(domain, live[k], k, after) {
      OthersKept(domain.policy, s, Start(owner, bytes), k);
      StandsStill(domain, live[k], k, s, after);
    }
    live', next' := live, next;
    if job != null {
      live', next' := live[next := job], next + 1;
    }
  }

  lemma {:induction false} NextIsNew(p: AsyncPolicy, s: State)
    requires Sound(p, s)
    ensures s.started !in s.jobs
  {
    if s.started in s.jobs {
      Live(s, s.started);
    }
  }

  /** The other jobs' leases and flags are as they were. */
  method OnOne(domain: Domain, live: map<nat, JobLease>, next: nat, ghost s: State, op: JobOp) returns (reply: Reply)
    requires Tracked(domain, live, next, s) && !op.Start? && op.job in live
    modifies live[op.job].input, live[op.job].result, live[op.job].cancel, domain.jobs, domain.results
    ensures var (after, told) := Applied(domain.policy, s, op);
            reply == told && Booked(domain, after) && (!op.Finish? ==> Standing(domain, live[op.job], op.job, after))
    ensures forall k | k in live && k != op.job :: Standing(domain, live[k], k, s)
  {
    hide Sound, Domain.Valid, Known, Applied;
    forall k | k in live && k != op.job ensures live[k].input != live[op.job].input && live[k].result != live[op.job].result
      && live[k].cancel != live[op.job].cancel && live[k].input != live[op.job].result && live[k].result != live[op.job].input {
      Separate(domain, live, next, s, k, op.job);
    }
    Stood(domain, live, next, s, op.job);
    hide Standing, Tracked;
    reply := OnJob(domain, live[op.job], s, op);
  }

  lemma {:induction false} Stood(domain: Domain, live: map<nat, JobLease>, next: nat, s: State, job: nat)
    requires Tracked(domain, live, next, s) && job in live
    ensures Known(s, job) && Booked(domain, s) && forall k | k in live :: Standing(domain, live[k], k, s)
  {
    hide Sound, Domain.Valid;
  }

  method Proceed(domain: Domain, live: map<nat, JobLease>, next: nat, ghost s: State, op: JobOp)
    returns (live': map<nat, JobLease>, reply: Reply)
    requires Tracked(domain, live, next, s) && !op.Start? && op.job in live
    modifies live[op.job].input, live[op.job].result, live[op.job].cancel, domain.jobs, domain.results
    ensures var (after, told) := Applied(domain.policy, s, op); reply == told && Tracked(domain, live', next, after)
    ensures forall k | k in live' :: k in live && live'[k] == live[k]
  {
    hide Sound, Booked, Standing, Known, Applied;
    ghost var after := Applied(domain.policy, s, op).0;
    Reserved(domain, s);
    SoundStep(domain.policy, s, op);
    Present(domain.policy, s, op.job);
    SameJobs(domain.policy, s, op);
    reply := OnOne(domain, live, next, s, op);
    live' := if op.Finish? then live - {op.job} else live;
    forall k | k in live && k != op.job ensures Standing(domain, live[k], k, after) {
      OthersKept(domain.policy, s, op, k);
      StandsStill(domain, live[k], k, s, after);
    }
  }

  lemma {:induction false} Present(p: AsyncPolicy, s: State, job: nat)
    requires Sound(p, s)
    ensures job in s.jobs <==> Known(s, job)
  {
    if job in s.jobs {
      Live(s, job);
    }
  }

  lemma {:induction false} SameJobs(p: AsyncPolicy, s: State, op: JobOp)
    requires !op.Start? && Known(s, op.job)
    ensures Applied(p, s, op).0.started == s.started
    ensures forall k :: k in Applied(p, s, op).0.jobs <==> k in s.jobs && (op.Finish? ==> k != op.job)
  {
    hide LeaseRuns.Admits, Bytes;
  }

  method Perform(domain: Domain, live: map<nat, JobLease>, next: nat, ghost s: State, op: JobOp)
    returns (live': map<nat, JobLease>, next': nat, reply: Reply)
    requires Tracked(domain, live, next, s)
    modifies domain.jobs, domain.results
    modifies set k | k in live :: live[k].input
    modifies set k | k in live :: live[k].result
    modifies set k | k in live :: live[k].cancel
    ensures var (after, told) := Applied(domain.policy, s, op); reply == told && Tracked(domain, live', next', after)
    ensures forall k | k in live' :: (k in live && live'[k] == live[k])
                                     || (fresh(live'[k].input) && fresh(live'[k].result) && fresh(live'[k].cancel))
  {
    hide Sound, Domain.Valid, Standing, Known, StartedJob;
    live', next', reply := live, next, NoJob;
    if op.Start? {
      live', next', reply := Begin(domain, live, next, s, op.owner, op.bytes);
    } else {
      Present(domain.policy, s, op.job);
      if op.job in live {
        live', reply := Proceed(domain, live, next, s, op);
      }
    }
  }

  /** Over any run under a validated policy: every answer, both books, and which jobs are live and cancelled are those of adding
      up the live leases; the gauges are those sums, and every live job has its failure reservation and an input within the item
      limit. */
  method Run(p: AsyncPolicy, ops: seq<JobOp>) returns (domain: Domain, live: map<nat, JobLease>, replies: seq<Reply>)
    requires p.Validate()
    ensures domain.Valid() && domain.policy == p
    ensures var after := After(p, EMPTY, ops);
            && replies == Replies(p, EMPTY, ops) && Sound(p, after)
            && domain.jobs.book == after.inputs && domain.results.book == after.results
            && (forall k :: k in live <==> k in after.jobs)
            && (forall k | k in live :: Standing(domain, live[k], k, after) && live[k].Valid())
    ensures domain.jobs.total == Sums(domain.jobs.book) && domain.results.total == Sums(domain.results.book)
    ensures forall owner :: Shown(domain.jobs.owners, owner) == SumsOf(domain.jobs.book, owner)
    ensures |live| == domain.jobs.total.items == domain.results.total.items <= p.jobsGlobal
    ensures forall k | k in live :: p.failureBytes <= live[k].result.bytes <= p.completionBytes && live[k].input.bytes <= p.inputItemBytes
  {
    hide Sound, Domain.Valid, Standing, Known, Applied, AsyncPolicy.Validate, Balanced, Sums, SumsOf;
    domain := new Domain(p);
    live, replies := map[], [];
    var next := 0;
    ghost var s := EMPTY;
    Nothing(domain);
    assert ops[0..] == ops;
    for n := 0 to |ops|
      invariant Tracked(domain, live, next, s) && domain.policy == p && fresh(domain.jobs) && fresh(domain.results)
      invariant forall k | k in live :: fresh(live[k].input) && fresh(live[k].result) && fresh(live[k].cancel)
      invariant replies + Replies(p, s, ops[n..]) == Replies(p, EMPTY, ops)
      invariant After(p, s, ops[n..]) == After(p, EMPTY, ops)
    {
      RunNext(p, s, ops, n);
      var reply;
      live, next, reply := Perform(domain, live, next, s, ops[n]);
      replies := replies + [reply];
      s := Applied(p, s, ops[n]).0;
    }
    assert ops[|ops|..] == [];
    Gauged(domain, live, next, s);
  }

  lemma {:induction false} Nothing(domain: Domain)
    requires domain.Valid() && domain.jobs.book == [] && domain.results.book == []
    ensures Tracked(domain, map[], 0, EMPTY)
  {
    hide Balanced, AsyncPolicy.Validate;
  }

  lemma {:induction false} Gauged(domain: Domain, live: map<nat, JobLease>, next: nat, s: State)
    requires Tracked(domain, live, next, s)
    ensures domain.jobs.total == Sums(domain.jobs.book) && domain.results.total == Sums(domain.results.book)
    ensures forall owner :: Shown(domain.jobs.owners, owner) == SumsOf(domain.jobs.book, owner)
    ensures |live| == domain.jobs.total.items == domain.results.total.items <= domain.policy.jobsGlobal
    ensures forall k | k in live :: live[k].Valid() && domain.policy.failureBytes <= live[k].result.bytes <= domain.policy.completionBytes
                                    && live[k].input.bytes <= domain.policy.inputItemBytes
  {
    hide AsyncPolicy.Validate, Coupled, Singles, SumsOf, Items, Bytes;
    assert live.Keys == s.jobs.Keys;
    assert |live.Keys| == |live| && |s.jobs.Keys| == |s.jobs|;
    LeaseRuns.GaugesAreSums(domain.jobs, Host);
    LeaseRuns.GaugesAreSums(domain.results, Host);
    domain.jobs.WithinLimits(Host);
    forall owner ensures Shown(domain.jobs.owners, owner) == SumsOf(domain.jobs.book, owner) {
      LeaseRuns.GaugesAreSums(domain.jobs, owner);
    }
    hide Balanced;
    forall k | k in live ensures live[k].Valid() && domain.policy.failureBytes <= live[k].result.bytes <= domain.policy.completionBytes
                                 && live[k].input.bytes <= domain.policy.inputItemBytes {
      Kinds(domain.policy, s, k);
    }
  }
}
