/** The hook multiplexer: one channel's subscriptions in dispatch order, the collapse of their results,
    and the automatic disabling of handlers that keep failing. */
module Multiplexer {
  /** A channel name or a plugin id. */
  datatype Name = Name(text: string)

  datatype HookResult = Continue | Changed | Handled | Stop
  datatype Priority = High | Normal | Low | Monitor
  datatype Phase = Pre | Post
  datatype DetourChange = NoChange | Install | Remove

  const MAX_HANDLER_ERRORS: nat := 10

  /** A handler together with the plugin generation it was registered under. */
  datatype Handler = Handler(generation: nat, callback: nat)

  datatype Subscription = Subscription(
    id: nat, priority: Priority, phase: Phase, owner: Name, handler: Handler, enabled: bool, errors: nat)

  /** What a snapshot hands to dispatch. */
  datatype Listed = Listed(id: nat, priority: Priority, owner: Name, handler: Handler)

  function Rank(p: Priority): nat {
    match p
    case High => 0
    case Normal => 1
    case Low => 2
    case Monitor => 3
  }

  function Severity(r: HookResult): nat {
    match r
    case Continue => 0
    case Changed => 1
    case Handled => 2
    case Stop => 3
  }

  /** The per-thread source of subscriber-set versions. */
  class Versions {
    var last: nat

    constructor ()
      ensures last == 0
    {
      last := 0;
    }

    method Next() returns (v: nat)
      modifies this
      ensures v == last == old(last) + 1
    {
      last := last + 1;
      v := last;
    }
  }

  // ---- the subscriptions of one channel ----

  function CountEnabled(subs: seq<Subscription>): nat {
    if subs == [] then 0 else (if subs[0].enabled then 1 else 0) + CountEnabled(subs[1..])
  }

  function CountEnabledOf(subs: seq<Subscription>, owner: Name): nat {
    if subs == [] then 0
    else (if subs[0].enabled && subs[0].owner == owner then 1 else 0) + CountEnabledOf(subs[1..], owner)
  }

  /** Before the first subscription of a strictly later priority. */
  function Place(subs: seq<Subscription>, s: Subscription): (r: seq<Subscription>)
    ensures |r| == |subs| + 1
  {
    if subs == [] || Rank(subs[0].priority) > Rank(s.priority) then [s] + subs
    else [subs[0]] + Place(subs[1..], s)
  }

  function WithoutOwner(subs: seq<Subscription>, owner: Name): (r: seq<Subscription>)
    ensures |r| <= |subs|
  {
    if subs == [] then [] else (if subs[0].owner == owner then [] else [subs[0]]) + WithoutOwner(subs[1..], owner)
  }

  function WithoutId(subs: seq<Subscription>, id: nat): (r: seq<Subscription>)
    ensures |r| <= |subs|
  {
    if subs == [] then [] else (if subs[0].id == id then [] else [subs[0]]) + WithoutId(subs[1..], id)
  }

  /** One more error: the handler is switched off at the threshold, and errors of one that is off do not count. */
  function Faulted(s: Subscription): Subscription {
    if !s.enabled then s else s.(errors := s.errors + 1, enabled := s.errors + 1 < MAX_HANDLER_ERRORS)
  }

  function WithError(subs: seq<Subscription>, id: nat): (r: seq<Subscription>)
    ensures |r| == |subs|
    ensures forall i | 0 <= i < |subs| :: r[i] == if subs[i].id == id then Faulted(subs[i]) else subs[i]
  {
    if subs == [] then [] else [if subs[0].id == id then Faulted(subs[0]) else subs[0]] + WithError(subs[1..], id)
  }

  function WithErrors(subs: seq<Subscription>, ids: seq<nat>): (r: seq<Subscription>)
    ensures |r| == |subs|
  {
    if ids == [] then subs else WithError(WithErrors(subs, ids[..|ids| - 1]), ids[|ids| - 1])
  }

  function Snapshot(subs: seq<Subscription>, phase: Phase): (r: seq<Listed>) {
    if subs == [] then [] else
      var s := subs[0];
      (if s.enabled && s.phase == phase then [Listed(s.id, s.priority, s.owner, s.handler)] else []) + Snapshot(subs[1..], phase)
  }

  /** Dispatch order: by priority, and by registration within one priority. */
  ghost predicate Before(a: Subscription, b: Subscription) {
    a.id != b.id && (Rank(a.priority) < Rank(b.priority) || (Rank(a.priority) == Rank(b.priority) && a.id < b.id))
  }

  ghost predicate Ordered(subs: seq<Subscription>) {
    forall i, j | 0 <= i < j < |subs| :: Before(subs[i], subs[j])
  }

  ghost predicate Issued(subs: seq<Subscription>, nextId: nat) {
    forall i | 0 <= i < |subs| ::
      1 <= subs[i].id < nextId && subs[i].errors <= MAX_HANDLER_ERRORS && (subs[i].enabled <==> subs[i].errors < MAX_HANDLER_ERRORS)
  }

  /** The detour a channel needs, and the change a step asks for. */
  function Transition(before: nat, after: nat): DetourChange {
    if before == 0 && after > 0 then Install
    else if before > 0 && after == 0 then Remove
    else NoChange
  }

  // ---- laws ----

  lemma {:induction false} PlaceAt(subs: seq<Subscription>, s: Subscription, pos: nat)
    requires pos <= |subs|
    requires forall k | 0 <= k < pos :: Rank(subs[k].priority) <= Rank(s.priority)
    requires pos < |subs| ==> Rank(subs[pos].priority) > Rank(s.priority)
    ensures Place(subs, s) == subs[..pos] + [s] + subs[pos..]
  {
    hide Rank;
    if pos == 0 {
      assert subs[..0] + [s] + subs[0..] == [s] + subs;
    } else {
      PlaceAt(subs[1..], s, pos - 1);
      var first, before, after := subs[0], subs[1..][..pos - 1], subs[pos..];
      assert subs[..pos] == [first] + before && subs[1..][pos - 1..] == after;
      Together(first, before, s, after);
    }
  }

  lemma {:induction false} Together(first: Subscription, before: seq<Subscription>, s: Subscription, after: seq<Subscription>)
    ensures [first] + (before + [s] + after) == ([first] + before) + [s] + after
  {
  }

  lemma {:induction false} PlaceAfter(a: Subscription, subs: seq<Subscription>, s: Subscription)
    requires Before(a, s) && forall i | 0 <= i < |subs| :: Before(a, subs[i])
    ensures forall i | 0 <= i < |subs| + 1 :: Before(a, Place(subs, s)[i])
  {
    if subs == [] || Rank(subs[0].priority) > Rank(s.priority) {
    } else {
      PlaceAfter(a, subs[1..], s);
    }
  }

  /** A new subscription goes after everything of its own or an earlier priority, and order is kept. */
  lemma {:induction false} PlaceOrdered(subs: seq<Subscription>, s: Subscription)
    requires Ordered(subs) && Issued(subs, s.id) && s.id >= 1 && s.errors == 0 && s.enabled
    ensures Ordered(Place(subs, s)) && Issued(Place(subs, s), s.id + 1)
  {
    if subs == [] || Rank(subs[0].priority) > Rank(s.priority) {
    } else {
      PlaceOrdered(subs[1..], s);
      PlaceAfter(subs[0], subs[1..], s);
    }
  }

  lemma {:induction false} PlaceCount(subs: seq<Subscription>, s: Subscription)
    ensures CountEnabled(Place(subs, s)) == CountEnabled(subs) + if s.enabled then 1 else 0
  {
    if subs == [] || Rank(subs[0].priority) > Rank(s.priority) {
      assert ([s] + subs)[1..] == subs;
    } else {
      PlaceCount(subs[1..], s);
      assert ([subs[0]] + Place(subs[1..], s))[1..] == Place(subs[1..], s);
    }
  }

  lemma {:induction false} WithoutOwnerAfter(a: Subscription, subs: seq<Subscription>, owner: Name)
    requires forall i | 0 <= i < |subs| :: Before(a, subs[i])
    ensures forall i | 0 <= i < |WithoutOwner(subs, owner)| :: Before(a, WithoutOwner(subs, owner)[i])
  {
    if subs != [] {
      WithoutOwnerAfter(a, subs[1..], owner);
    }
  }

  lemma {:induction false} WithoutOwnerKept(subs: seq<Subscription>, owner: Name, nextId: nat)
    requires Ordered(subs) && Issued(subs, nextId)
    ensures Ordered(WithoutOwner(subs, owner)) && Issued(WithoutOwner(subs, owner), nextId)
  {
    if subs != [] {
      WithoutOwnerKept(subs[1..], owner, nextId);
      WithoutOwnerAfter(subs[0], subs[1..], owner);
    }
  }

  lemma {:induction false} WithoutOwnerCount(subs: seq<Subscription>, owner: Name)
    ensures CountEnabled(WithoutOwner(subs, owner)) + CountEnabledOf(subs, owner) == CountEnabled(subs)
  {
    if subs != [] {
      WithoutOwnerCount(subs[1..], owner);
      var rest := WithoutOwner(subs[1..], owner);
      assert ([subs[0]] + rest)[1..] == rest;
      assert [] + rest == rest;
    }
  }

  lemma {:induction false} AbsentIdChangesNothing(subs: seq<Subscription>, id: nat)
    requires forall k | 0 <= k < |subs| :: subs[k].id != id
    ensures WithoutId(subs, id) == subs && WithError(subs, id) == subs
  {
    if subs != [] {
      AbsentIdChangesNothing(subs[1..], id);
    }
  }

  ghost predicate DistinctIds(subs: seq<Subscription>) {
    forall i, j | 0 <= i < j < |subs| :: subs[i].id != subs[j].id
  }

  lemma {:induction false} WithoutIdAt(subs: seq<Subscription>, pos: nat)
    requires pos < |subs| && DistinctIds(subs)
    ensures WithoutId(subs, subs[pos].id) == subs[..pos] + subs[pos + 1..]
  {
    if pos == 0 {
      AbsentIdChangesNothing(subs[1..], subs[0].id);
      assert subs[..0] + subs[1..] == subs[1..];
    } else {
      WithoutIdAt(subs[1..], pos - 1);
      assert subs[..pos] + subs[pos + 1..] == [subs[0]] + (subs[1..][..pos - 1] + subs[1..][pos..]);
    }
  }

  lemma {:induction false} CountWithout(subs: seq<Subscription>, pos: nat)
    requires pos < |subs|
    ensures CountEnabled(subs[..pos] + subs[pos + 1..]) == CountEnabled(subs) - if subs[pos].enabled then 1 else 0
  {
    if pos == 0 {
      assert subs[..0] + subs[1..] == subs[1..];
    } else {
      CountWithout(subs[1..], pos - 1);
      var rest := subs[1..][..pos - 1] + subs[1..][pos..];
      assert subs[..pos] + subs[pos + 1..] == [subs[0]] + rest;
      assert ([subs[0]] + rest)[1..] == rest;
    }
  }

  lemma {:induction false} CutKept(subs: seq<Subscription>, pos: nat, nextId: nat)
    requires pos < |subs| && Ordered(subs) && Issued(subs, nextId)
    ensures Ordered(subs[..pos] + subs[pos + 1..]) && Issued(subs[..pos] + subs[pos + 1..], nextId) && DistinctIds(subs)
  {
  }

  lemma {:induction false} WithErrorAt(subs: seq<Subscription>, pos: nat)
    requires pos < |subs| && Ordered(subs)
    ensures WithError(subs, subs[pos].id) == subs[pos := Faulted(subs[pos])]
  {
  }

  lemma {:induction false} WithErrorKept(subs: seq<Subscription>, id: nat, nextId: nat)
    requires Ordered(subs) && Issued(subs, nextId)
    ensures Ordered(WithError(subs, id)) && Issued(WithError(subs, id), nextId)
  {
    var after := WithError(subs, id);
    forall i, j | 0 <= i < j < |after| ensures Before(after[i], after[j]) {
      assert Before(subs[i], subs[j]);
    }
  }

  lemma {:induction false} CountUpdate(subs: seq<Subscription>, pos: nat, s: Subscription)
    requires pos < |subs|
    ensures CountEnabled(subs[pos := s]) == CountEnabled(subs) - (if subs[pos].enabled then 1 else 0) + if s.enabled then 1 else 0
  {
    if pos != 0 {
      CountUpdate(subs[1..], pos - 1, s);
      assert subs[pos := s][1..] == subs[1..][pos - 1 := s];
    } else {
      assert subs[0 := s][1..] == subs[1..];
    }
  }

  function Occurrences(ids: seq<nat>, id: nat): nat {
    if ids == [] then 0 else Occurrences(ids[..|ids| - 1], id) + if ids[|ids| - 1] == id then 1 else 0
  }

  /** After a batch of errors each handler has as many as were reported, capped at the threshold, and is on
      exactly while it is below it. */
  lemma {:induction false} ErrorsCounted(subs: seq<Subscription>, ids: seq<nat>, nextId: nat, i: nat)
    requires Issued(subs, nextId) && i < |subs|
    ensures var s := WithErrors(subs, ids)[i];
            && s == subs[i].(errors := s.errors, enabled := s.enabled)
            && s.errors == Least(MAX_HANDLER_ERRORS, subs[i].errors + Occurrences(ids, subs[i].id))
            && (s.enabled <==> s.errors < MAX_HANDLER_ERRORS)
  {
    if ids != [] {
      ErrorsCounted(subs, ids[..|ids| - 1], nextId, i);
    }
  }

  function Least(a: nat, b: nat): nat {
    if a < b then a else b
  }

  /** If nothing was switched off, every snapshot is what it was. */
  lemma {:induction false} SameSnapshot(a: seq<Subscription>, b: seq<Subscription>, phase: Phase)
    requires |a| == |b|
    requires forall i | 0 <= i < |a| :: b[i] == a[i].(errors := b[i].errors)
    ensures Snapshot(a, phase) == Snapshot(b, phase)
  {
    if a != [] {
      SameSnapshot(a[1..], b[1..], phase);
    }
  }

  lemma {:induction false} FewerEnabled(a: seq<Subscription>, b: seq<Subscription>)
    requires |a| == |b|
    requires forall i | 0 <= i < |a| :: b[i].enabled ==> a[i].enabled
    ensures CountEnabled(b) <= CountEnabled(a)
    ensures CountEnabled(b) == CountEnabled(a) ==> forall i | 0 <= i < |a| :: a[i].enabled == b[i].enabled
  {
    if a != [] {
      FewerEnabled(a[1..], b[1..]);
      if CountEnabled(b) == CountEnabled(a) {
        forall i | 0 <= i < |a| ensures a[i].enabled == b[i].enabled {
          if i > 0 {
            assert a[1..][i - 1].enabled == b[1..][i - 1].enabled;
          }
        }
      }
    }
  }

  // ---- the descriptor ----

  ghost predicate WellKept(subs: seq<Subscription>, nextId: nat, enabledCount: nat) {
    nextId >= 1 && Ordered(subs) && Issued(subs, nextId) && enabledCount == CountEnabled(subs)
  }

  class Descriptor {
    const name: Name
    var subs: seq<Subscription>
    var nextId: nat
    var enabledCount: nat
    var version: nat

    ghost predicate Valid()
      reads this
    {
      WellKept(subs, nextId, enabledCount)
    }

    constructor (versions: Versions, name: Name)
      modifies versions
      ensures Valid() && this.name == name && subs == [] && nextId == 1 && enabledCount == 0
      ensures version == versions.last == old(versions.last) + 1
    {
      this.name := name;
      subs, nextId, enabledCount := [], 1, 0;
      new;
      version := versions.Next();
    }

    /** Ids are handed out in increasing order and never again. */
    method Subscribe(versions: Versions, priority: Priority, phase: Phase, owner: Name, handler: Handler)
      returns (id: nat, change: DetourChange)
      requires Valid()
      modifies this, versions
      ensures Valid()
      ensures id == old(nextId) && nextId == id + 1
      ensures subs == Place(old(subs), Subscription(id, priority, phase, owner, handler, true, 0))
      ensures enabledCount == old(enabledCount) + 1 && change == Transition(old(enabledCount), enabledCount)
      ensures version == versions.last == old(versions.last) + 1
    {
      version := versions.Next();
      id := nextId;
      nextId := nextId + 1;
      var s := Subscription(id, priority, phase, owner, handler, true, 0);
      var pos := 0;
      while pos < |subs| && Rank(subs[pos].priority) <= Rank(priority)
        invariant pos <= |subs| && forall k | 0 <= k < pos :: Rank(subs[k].priority) <= Rank(priority)
      {
        pos := pos + 1;
      }
      hide Ordered, Issued, Place, CountEnabled;
      PlaceAt(subs, s, pos);
      PlaceOrdered(subs, s);
      PlaceCount(subs, s);
      subs := subs[..pos] + [s] + subs[pos..];
      change := if enabledCount == 0 then Install else NoChange;
      enabledCount := enabledCount + 1;
    }

    method RemoveByOwner(versions: Versions, owner: Name) returns (change: DetourChange)
      requires Valid()
      modifies this, versions
      ensures Valid() && nextId == old(nextId)
      ensures subs == WithoutOwner(old(subs), owner)
      ensures change == Transition(old(enabledCount), enabledCount)
      ensures version == versions.last == old(versions.last) + 1
    {
      hide Ordered, Issued, WithoutOwner, CountEnabled, CountEnabledOf;
      version := versions.Next();
      WithoutOwnerKept(subs, owner, nextId);
      WithoutOwnerCount(subs, owner);
      var beforeEnabled := CountEnabledOf(subs, owner);
      subs := WithoutOwner(subs, owner);
      enabledCount := CountEnabled(subs);
      change := if beforeEnabled > 0 && enabledCount == 0 then Remove else NoChange;
    }

    method Find(id: nat) returns (pos: nat)
      ensures pos <= |subs| && (pos < |subs| ==> subs[pos].id == id)
      ensures pos == |subs| ==> forall k | 0 <= k < |subs| :: subs[k].id != id
    {
      pos := 0;
      while pos < |subs| && subs[pos].id != id
        invariant pos <= |subs| && forall k | 0 <= k < pos :: subs[k].id != id
      {
        pos := pos + 1;
      }
    }

    method DecEnabled() returns (change: DetourChange)
      requires enabledCount > 0
      modifies `enabledCount
      ensures enabledCount == old(enabledCount) - 1 && change == Transition(old(enabledCount), enabledCount)
    {
      enabledCount := enabledCount - 1;
      change := if enabledCount == 0 then Remove else NoChange;
    }

    method Unsubscribe(versions: Versions, id: nat) returns (change: DetourChange)
      requires Valid()
      modifies this, versions
      ensures Valid() && nextId == old(nextId)
      ensures subs == WithoutId(old(subs), id)
      ensures change == Transition(old(enabledCount), enabledCount)
      ensures version == versions.last == old(versions.last) + 1
    {
      hide Ordered, Issued, WithoutId, CountEnabled, DistinctIds;
      version := versions.Next();
      var pos := Find(id);
      change := NoChange;
      if pos < |subs| {
        CutKept(subs, pos, nextId);
        WithoutIdAt(subs, pos);
        CountWithout(subs, pos);
        var wasEnabled := subs[pos].enabled;
        subs := subs[..pos] + subs[pos + 1..];
        if wasEnabled {
          change := DecEnabled();
        }
      } else {
        AbsentIdChangesNothing(subs, id);
      }
    }

    /** The version stays only if every snapshot does. */
    method ApplyErrors(versions: Versions, errored: seq<nat>) returns (detour: DetourChange)
      requires Valid() && version <= versions.last
      modifies this, versions
      ensures Valid() && nextId == old(nextId)
      ensures subs == WithErrors(old(subs), errored)
      ensures detour == Transition(old(enabledCount), enabledCount)
      ensures versions.last >= old(versions.last) && version <= versions.last
      ensures version == old(version) ==> forall phase :: Snapshot(subs, phase) == Snapshot(old(subs), phase)
      ensures version != old(version) ==> version > old(versions.last)
      ensures version == old(version) <==> enabledCount == old(enabledCount)
    {
      hide Ordered, Issued, WithErrors, WithError, CountEnabled, Snapshot;
      NoErrors(subs);
      var disabled := 0;
      for k := 0 to |errored|
        invariant subs == WithErrors(old(subs), errored[..k])
        invariant Ordered(subs) && Issued(subs, nextId)
        invariant disabled + CountEnabled(subs) == enabledCount
        invariant nextId == old(nextId) && enabledCount == old(enabledCount) && version == old(version)
        invariant versions.last == old(versions.last)
      {
        NextError(old(subs), errored, k);
        WithErrorKept(subs, errored[k], nextId);
        var pos := Find(errored[k]);
        if pos == |subs| {
          AbsentIdChangesNothing(subs, errored[k]);
        } else {
          WithErrorAt(subs, pos);
          CountUpdate(subs, pos, Faulted(subs[pos]));
          var s := subs[pos];
          if s.enabled {
            s := s.(errors := s.errors + 1);
            if s.errors >= MAX_HANDLER_ERRORS {
              s := s.(enabled := false);
              disabled := disabled + 1;
            }
            subs := subs[pos := s];
          }
        }
      }
      assert errored[..|errored|] == errored;
      if disabled > 0 {
        version := versions.Next();
      } else {
        NothingDisabled(old(subs), errored, nextId);
      }
      detour := NoChange;
      for k := 0 to disabled
        invariant enabledCount == CountEnabled(subs) + disabled - k
        invariant detour == Transition(old(enabledCount), enabledCount)
        invariant subs == WithErrors(old(subs), errored) && nextId == old(nextId)
        invariant version <= versions.last && versions.last >= old(versions.last)
        invariant version == old(version) <==> disabled == 0
        invariant version != old(version) ==> version > old(versions.last)
        invariant enabledCount == old(enabledCount) - k
      {
        var change := DecEnabled();
        if change == Remove {
          detour := Remove;
        }
      }
    }
  }

  lemma {:induction false} NoErrors(subs: seq<Subscription>)
    ensures WithErrors(subs, []) == subs
  {
  }

  lemma {:induction false} NextError(subs: seq<Subscription>, ids: seq<nat>, k: nat)
    requires k < |ids|
    ensures WithErrors(subs, ids[..k + 1]) == WithError(WithErrors(subs, ids[..k]), ids[k])
  {
    assert ids[..k + 1][..k] == ids[..k];
  }

  lemma {:induction false} NothingDisabled(subs: seq<Subscription>, ids: seq<nat>, nextId: nat)
    requires Issued(subs, nextId) && CountEnabled(WithErrors(subs, ids)) == CountEnabled(subs)
    ensures forall phase :: Snapshot(WithErrors(subs, ids), phase) == Snapshot(subs, phase)
  {
    hide WithErrors, Snapshot, CountEnabled;
    var after := WithErrors(subs, ids);
    forall i | 0 <= i < |subs| ensures after[i] == subs[i].(errors := after[i].errors, enabled := after[i].enabled) && (after[i].enabled ==> subs[i].enabled) {
      ErrorsCounted(subs, ids, nextId, i);
    }
    FewerEnabled(subs, after);
    forall phase ensures Snapshot(after, phase) == Snapshot(subs, phase) {
      SameSnapshot(subs, after, phase);
    }
  }

  // ---- running a chain ----

  /** What invoking a handler answers. */
  datatype Reply = Ok(result: HookResult) | Err

  datatype ChainOutcome = ChainOutcome(result: HookResult, errored: seq<nat>)

  function More(a: HookResult, b: HookResult): HookResult {
    if Severity(b) > Severity(a) then b else a
  }

  /** Some non-monitor among the first `n` answered Stop. */
  ghost predicate Stopped(snapshot: seq<Listed>, replies: seq<Reply>, n: nat)
    requires n <= |snapshot| == |replies|
  {
    exists j :: 0 <= j < n && snapshot[j].priority != Monitor && replies[j] == Ok(Stop)
  }

  /** Whether the subscriber at `i` is called: a monitor always, another until a non-monitor stops the chain. */
  ghost predicate Invoked(snapshot: seq<Listed>, replies: seq<Reply>, i: nat)
    requires i < |snapshot| == |replies|
  {
    snapshot[i].priority == Monitor || !Stopped(snapshot, replies, i)
  }

  /** The positions called among the first `n`, in order. */
  ghost function Calls(snapshot: seq<Listed>, replies: seq<Reply>, n: nat): seq<nat>
    requires n <= |snapshot| == |replies|
  {
    if n == 0 then [] else
      Calls(snapshot, replies, n - 1) + if Invoked(snapshot, replies, n - 1) then [n - 1] else []
  }

  /** The collapsed result of the first `n` subscribers. */
  ghost function Collapsed(snapshot: seq<Listed>, replies: seq<Reply>, n: nat): HookResult
    requires n <= |snapshot| == |replies|
  {
    if n == 0 then Continue else
      var before := Collapsed(snapshot, replies, n - 1);
      if snapshot[n - 1].priority != Monitor && Invoked(snapshot, replies, n - 1) && replies[n - 1].Ok?
      then More(before, replies[n - 1].result) else before
  }

  ghost function Failures(snapshot: seq<Listed>, replies: seq<Reply>, n: nat): seq<nat>
    requires n <= |snapshot| == |replies|
  {
    if n == 0 then [] else
      Failures(snapshot, replies, n - 1)
      + if Invoked(snapshot, replies, n - 1) && replies[n - 1].Err? then [snapshot[n - 1].id] else []
  }

  lemma {:induction false} StoppedStep(snapshot: seq<Listed>, replies: seq<Reply>, i: nat)
    requires i < |snapshot| == |replies|
    ensures Stopped(snapshot, replies, i + 1) <==>
            Stopped(snapshot, replies, i) || (snapshot[i].priority != Monitor && replies[i] == Ok(Stop))
    ensures !Stopped(snapshot, replies, 0)
  {
  }

  /** `invoked` lists the positions called; `replies[i]` is what subscriber `i` answers if called. */
  method RunChain(snapshot: seq<Listed>, replies: seq<Reply>) returns (outcome: ChainOutcome, invoked: seq<nat>)
    requires |snapshot| == |replies|
    ensures outcome.result == Collapsed(snapshot, replies, |snapshot|)
    ensures outcome.errored == Failures(snapshot, replies, |snapshot|)
    ensures invoked == Calls(snapshot, replies, |snapshot|)
  {
    var result, stopped := Continue, false;
    var errored: seq<nat> := [];
    invoked := [];
    hide Stopped;
    if snapshot != [] {
      StoppedStep(snapshot, replies, 0);
    }
    for i := 0 to |snapshot|
      invariant result == Collapsed(snapshot, replies, i) && errored == Failures(snapshot, replies, i)
      invariant invoked == Calls(snapshot, replies, i)
      invariant i < |snapshot| ==> (stopped <==> Stopped(snapshot, replies, i))
    {
      StoppedStep(snapshot, replies, i);
      var isMonitor := snapshot[i].priority == Monitor;
      if !isMonitor && stopped {
        continue;
      }
      invoked := invoked + [i];
      match replies[i]
      case Ok(r) =>
        if !isMonitor {
          if Severity(r) > Severity(result) {
            result := r;
          }
          if r == Stop {
            stopped := true;
          }
        }
      case Err => errored := errored + [snapshot[i].id];
    }
    outcome := ChainOutcome(result, errored);
  }

  /** The result is the strongest answer of any non-monitor that was invoked. */
  lemma {:induction false} CollapsedIsMaximum(snapshot: seq<Listed>, replies: seq<Reply>, n: nat)
    requires n <= |snapshot| == |replies|
    ensures var r := Collapsed(snapshot, replies, n);
            && (forall i | 0 <= i < n && snapshot[i].priority != Monitor && Invoked(snapshot, replies, i) && replies[i].Ok? ::
                  Severity(replies[i].result) <= Severity(r))
            && (r == Continue || exists i :: 0 <= i < n && snapshot[i].priority != Monitor
                                             && Invoked(snapshot, replies, i) && replies[i] == Ok(r))
  {
    if n != 0 {
      CollapsedIsMaximum(snapshot, replies, n - 1);
      var r := Collapsed(snapshot, replies, n);
      if r == Collapsed(snapshot, replies, n - 1) {
        if r != Continue {
          var i :| 0 <= i < n - 1 && snapshot[i].priority != Monitor && Invoked(snapshot, replies, i) && replies[i] == Ok(r);
        }
      } else {
        assert replies[n - 1] == Ok(r);
      }
    }
  }

  // ---- in plain terms ----

  /** High before normal before low before monitor, and within one priority the earlier registered first. */
  lemma {:induction false} DispatchOrder(subs: seq<Subscription>, i: nat, j: nat)
    requires Ordered(subs) && i < j < |subs|
    ensures subs[j].priority == High ==> subs[i].priority == High
    ensures subs[i].priority == Low ==> subs[j].priority == Low || subs[j].priority == Monitor
    ensures subs[i].priority == Monitor ==> subs[j].priority == Monitor
    ensures subs[i].priority == subs[j].priority ==> subs[i].id < subs[j].id
  {
    assert Before(subs[i], subs[j]);
  }

  /** Whether a detour is in place after a change. */
  function Switched(installed: bool, change: DetourChange): bool {
    match change
    case Install => true
    case Remove => false
    case NoChange => installed
  }

  /** A detour is in place exactly while some handler is on, and a change is asked for only when there is one to make. */
  lemma {:induction false} DetourFollows(before: nat, after: nat)
    ensures Switched(before > 0, Transition(before, after)) <==> after > 0
    ensures Transition(before, after) == NoChange <==> (before > 0 <==> after > 0)
  {
  }

  lemma {:induction false} OccurrencesCounted(ids: seq<nat>, id: nat)
    ensures Occurrences(ids, id) == multiset(ids)[id]
  {
    if ids != [] {
      OccurrencesCounted(ids[..|ids| - 1], id);
      assert ids == ids[..|ids| - 1] + [ids[|ids| - 1]];
    }
  }

  /** A handler without errors is switched off by the tenth report, and by nothing less. */
  lemma {:induction false} TenErrorsDisable(subs: seq<Subscription>, ids: seq<nat>, nextId: nat, i: nat)
    requires Issued(subs, nextId) && i < |subs| && subs[i].errors == 0
    ensures WithErrors(subs, ids)[i].enabled <==> multiset(ids)[subs[i].id] < 10
  {
    hide WithErrors, Occurrences;
    ErrorsCounted(subs, ids, nextId, i);
    OccurrencesCounted(ids, subs[i].id);
  }

  /** A snapshot has the handlers of its phase that are on, in dispatch order. */
  lemma {:induction false} SnapshotAppend(subs: seq<Subscription>, s: Subscription, phase: Phase)
    ensures Snapshot([], phase) == []
    ensures Snapshot(subs + [s], phase)
            == Snapshot(subs, phase) + if s.enabled && s.phase == phase then [Listed(s.id, s.priority, s.owner, s.handler)] else []
  {
    hide Snapshot;
    SnapshotHead(s, [], phase);
    if subs == [] {
      assert subs + [s] == [s] + [];
    } else {
      SnapshotAppend(subs[1..], s, phase);
      SnapshotHead(subs[0], subs[1..], phase);
      SnapshotHead(subs[0], subs[1..] + [s], phase);
      assert subs == [subs[0]] + subs[1..] && subs + [s] == [subs[0]] + (subs[1..] + [s]);
    }
  }

  lemma {:induction false} SnapshotHead(s: Subscription, rest: seq<Subscription>, phase: Phase)
    ensures Snapshot([], phase) == []
    ensures Snapshot([s] + rest, phase)
            == (if s.enabled && s.phase == phase then [Listed(s.id, s.priority, s.owner, s.handler)] else []) + Snapshot(rest, phase)
  {
    assert ([s] + rest)[1..] == rest;
  }

  /** The subscribers called: every monitor, and the others up to the first of them that answers Stop. */
  lemma {:induction false} CalledExactly(snapshot: seq<Listed>, replies: seq<Reply>, n: nat, i: nat)
    requires n <= |snapshot| == |replies|
    ensures i in Calls(snapshot, replies, n) <==>
            i < n && (snapshot[i].priority == Monitor || forall j | 0 <= j < i && snapshot[j].priority != Monitor :: replies[j] != Ok(Stop))
  {
    if n > 0 {
      CalledExactly(snapshot, replies, n - 1, i);
    }
  }
}
