/** The indexed representation of a timer queue, as predicates over the values of its fields, and the
    facts about binary heaps that its methods rest on. */
module TimerHeap {
  import opened TimerSpec

  datatype DeadlineEntry = DeadlineEntry(id: nat, sequence: nat, target: Instant)

  datatype IdSequences =
    | One(sequence: nat)
    | Many(sequences: set<nat>)

  datatype Location =
    | AtDeadline(index: nat)
    | AtFrame(target: nat)
    | Ready

  type Heap = seq<DeadlineEntry>
  type Targets = map<Instant, nat>
  type Buckets = map<nat, map<nat, nat>>
  type ReadyMap = map<nat, nat>
  type Locations = map<nat, Location>
  /** The timers a store holds, by sequence. */
  type Book = map<nat, Entry>

  predicate Precedes(a: DeadlineEntry, b: DeadlineEntry) {
    a.target < b.target || (a.target == b.target && a.sequence < b.sequence)
  }

  function EntryOf(d: DeadlineEntry): Entry {
    Entry(d.sequence, d.id, Deadline(d.target), false)
  }

  // ---- heap order ----

  ghost predicate InOrder(h: Heap, i: nat) {
    0 < i < |h| ==> !Precedes(h[i], h[(i - 1) / 2])
  }

  ghost predicate HeapOrdered(h: Heap) {
    forall i: nat :: InOrder(h, i)
  }

  ghost predicate ChildOf(i: nat, k: nat) {
    0 < i && (i - 1) / 2 == k
  }

  /** Around a hole at `k` the children of `k` still respect the parent of `k`. */
  ghost predicate Bridged(h: Heap, k: nat) {
    0 < k < |h| ==> forall i: nat | ChildOf(i, k) && i < |h| :: !Precedes(h[i], h[(k - 1) / 2])
  }

  /** Ordered except between `k` and its parent. */
  ghost predicate OrderedExceptUp(h: Heap, k: nat) {
    (forall i: nat | i != k :: InOrder(h, i)) && Bridged(h, k)
  }

  /** Ordered except between `k` and its children. */
  ghost predicate OrderedExceptDown(h: Heap, k: nat) {
    (forall i: nat | !ChildOf(i, k) :: InOrder(h, i)) && Bridged(h, k)
  }

  lemma {:induction false} RootIsLeast(h: Heap, i: nat)
    requires HeapOrdered(h) && i < |h|
    ensures !Precedes(h[i], h[0])
  {
    if 0 < i {
      assert InOrder(h, i);
      RootIsLeast(h, (i - 1) / 2);
    }
  }

  // ---- the representation ----

  ghost predicate Located(h: Heap, loc: Locations) {
    forall i | 0 <= i < |h| :: h[i].sequence in loc && loc[h[i].sequence] == AtDeadline(i)
  }

  ghost function Sequences(h: Heap): set<nat> {
    set i | 0 <= i < |h| :: h[i].sequence
  }

  /** The locations of everything that is not in the heap are the same in both. */
  ghost predicate SameElsewhere(h: Heap, before: Locations, after: Locations) {
    && before.Keys == after.Keys
    && forall s | s in before && s !in Sequences(h) :: after[s] == before[s]
  }

  ghost predicate HeapHeld(h: Heap, live: Book) {
    forall i | 0 <= i < |h| :: h[i].sequence in live && live[h[i].sequence] == EntryOf(h[i])
  }

  ghost predicate FramesHeld(buckets: Buckets, loc: Locations, live: Book) {
    && (forall t | t in buckets :: buckets[t].Keys != {})
    && (forall t, s | t in buckets && s in buckets[t] ::
          && s in live && live[s] == Entry(s, buckets[t][s], Frame(t), false)
          && s in loc && loc[s] == AtFrame(t))
  }

  ghost predicate ReadyHeld(ready: ReadyMap, loc: Locations, live: Book) {
    forall s | s in ready ::
      && s in live && live[s].ready && live[s].id == ready[s]
      && s in loc && loc[s] == Ready
  }

  ghost predicate Placed(s: nat, h: Heap, buckets: Buckets, ready: ReadyMap, loc: Locations) {
    && s in loc
    && match loc[s]
       case AtDeadline(i) => i < |h| && h[i].sequence == s
       case AtFrame(t) => t in buckets && s in buckets[t]
       case Ready => s in ready
  }

  ghost predicate AllPlaced(h: Heap, buckets: Buckets, ready: ReadyMap, loc: Locations, live: Book) {
    forall s | s in live :: live[s].sequence == s && Placed(s, h, buckets, ready, loc)
  }

  /** Heap, frame buckets and ready map hold exactly `live`: nothing missing, no tombstone. */
  ghost predicate Holds(h: Heap, buckets: Buckets, ready: ReadyMap, loc: Locations, live: Book) {
    && Located(h, loc) && HeapHeld(h, live)
    && FramesHeld(buckets, loc, live)
    && ReadyHeld(ready, loc, live)
    && AllPlaced(h, buckets, ready, loc, live)
  }

  ghost function AtTarget(h: Heap, t: Instant): set<DeadlineEntry> {
    set e | e in h && e.target == t
  }

  /** The target index is the multiset of heap targets. */
  ghost predicate Counted(targets: Targets, h: Heap) {
    && (forall t | t in targets :: targets[t] == |AtTarget(h, t)| && 0 < targets[t])
    && (forall e | e in h :: e.target in targets)
  }

  ghost function SequencesOf(x: IdSequences): set<nat> {
    match x
    case One(s) => {s}
    case Many(ss) => ss
  }

  /** The id index lists exactly the live sequences of each id. */
  ghost predicate Indexed(ids: map<nat, IdSequences>, live: Book) {
    && (forall id | id in ids :: SequencesOf(ids[id]) != {})
    && (forall id, s | id in ids && s in SequencesOf(ids[id]) :: s in live && live[s].id == id)
    && (forall s | s in live :: live[s].id in ids && s in SequencesOf(ids[live[s].id]))
  }

  // ---- permuting the heap ----

  ghost predicate Permuted(h: Heap, h': Heap) {
    |h| == |h'| && multiset(h) == multiset(h')
  }

  lemma {:induction false} SameMembers(h: Heap, h': Heap)
    requires Permuted(h, h')
    ensures forall e :: e in h <==> e in h'
    ensures Sequences(h) == Sequences(h')
  {
    forall e ensures e in h <==> e in h' {
      assert e in h <==> e in multiset(h);
      assert e in h' <==> e in multiset(h');
    }
    SequencesWithin(h, h');
    SequencesWithin(h', h);
  }

  lemma {:induction false} SequencesWithin(h: Heap, h': Heap)
    requires forall e | e in h :: e in h'
    ensures Sequences(h) <= Sequences(h')
  {
    forall s | s in Sequences(h) ensures s in Sequences(h') {
      var i :| 0 <= i < |h| && h[i].sequence == s;
      assert h[i] in h';
      var j :| 0 <= j < |h'| && h'[j] == h[i];
    }
  }

  /** A permuted heap whose locations were kept up to date holds the same timers. */
  lemma {:induction false} HoldsPermuted(h: Heap, h': Heap, buckets: Buckets, ready: ReadyMap, loc: Locations, loc': Locations, live: Book)
    requires Holds(h, buckets, ready, loc, live)
    requires Permuted(h, h') && Located(h', loc') && SameElsewhere(h, loc, loc')
    ensures Holds(h', buckets, ready, loc', live)
  {
    SameMembers(h, h');
    forall i | 0 <= i < |h'| ensures h'[i].sequence in live && live[h'[i].sequence] == EntryOf(h'[i]) {
      assert h'[i] in h;
      var j :| 0 <= j < |h| && h[j] == h'[i];
    }
    PlacedPermuted(h, h', buckets, ready, loc, loc', live);
    NotInHeap(h, loc);
    assert FramesHeld(buckets, loc', live);
    assert ReadyHeld(ready, loc', live);
  }

  lemma {:induction false} NotInHeap(h: Heap, loc: Locations)
    requires Located(h, loc)
    ensures forall s | s in Sequences(h) :: s in loc && loc[s].AtDeadline?
  {
  }

  lemma {:induction false} PlacedPermuted(h: Heap, h': Heap, buckets: Buckets, ready: ReadyMap, loc: Locations, loc': Locations, live: Book)
    requires Located(h, loc) && AllPlaced(h, buckets, ready, loc, live)
    requires Sequences(h) == Sequences(h') && Located(h', loc') && SameElsewhere(h, loc, loc')
    ensures AllPlaced(h', buckets, ready, loc', live)
  {
    forall s | s in live ensures live[s].sequence == s && Placed(s, h', buckets, ready, loc') {
      assert Placed(s, h, buckets, ready, loc);
      assert loc[s].AtDeadline? ==> h[loc[s].index].sequence in Sequences(h);
      if s in Sequences(h) {
        var i :| 0 <= i < |h'| && h'[i].sequence == s;
      }
    }
  }

  lemma {:induction false} CountedPermuted(targets: Targets, h: Heap, h': Heap)
    requires Counted(targets, h) && Permuted(h, h')
    ensures Counted(targets, h')
  {
    SameMembers(h, h');
    forall t ensures AtTarget(h, t) == AtTarget(h', t) {
    }
  }

  function Swapped(h: Heap, a: nat, b: nat): (h': Heap)
    requires a < |h| && b < |h|
    ensures |h'| == |h|
  {
    h[a := h[b]][b := h[a]]
  }

  lemma {:induction false} SwappedPermutes(h: Heap, a: nat, b: nat)
    requires a < |h| && b < |h|
    ensures Permuted(h, Swapped(h, a, b))
  {
  }

  /** A heap that is swapped again and again has the same entries, and only their locations change. */
  lemma {:induction false} SwapChain(h0: Heap, l0: Locations, h1: Heap, l1: Locations, h2: Heap, l2: Locations)
    requires Permuted(h0, h1) && SameElsewhere(h0, l0, l1)
    requires Permuted(h1, h2) && SameElsewhere(h1, l1, l2)
    ensures Permuted(h0, h2) && SameElsewhere(h0, l0, l2)
  {
    SameMembers(h0, h1);
  }

  lemma {:induction false} SwapStart(h: Heap, loc: Locations)
    ensures Permuted(h, h) && SameElsewhere(h, loc, loc)
  {
  }

  /** Exchanging a node with its parent moves the break one level up. */
  lemma {:induction false} SwapUp(h: Heap, k: nat)
    requires 0 < k < |h| && OrderedExceptUp(h, k)
    requires Precedes(h[k], h[(k - 1) / 2])
    ensures OrderedExceptUp(Swapped(h, k, (k - 1) / 2), (k - 1) / 2)
  {
    var p := (k - 1) / 2;
    var g := Swapped(h, k, p);
    forall i: nat | i != p ensures InOrder(g, i) {
      assert i != k ==> InOrder(h, i);
      assert ChildOf(i, k) && i < |h| ==> !Precedes(h[i], h[p]);
    }
    forall i: nat | 0 < p && ChildOf(i, p) && i < |g| ensures !Precedes(g[i], g[(p - 1) / 2]) {
      assert InOrder(h, p);
      assert i != k ==> InOrder(h, i);
    }
  }

  /** Exchanging a node with its least child moves the break one level down. */
  lemma {:induction false} SwapDown(h: Heap, k: nat, c: nat)
    requires k < |h| && c < |h| && ChildOf(c, k) && OrderedExceptDown(h, k)
    requires LeastOfChildren(h, k, c)
    requires Precedes(h[c], h[k])
    ensures OrderedExceptDown(Swapped(h, k, c), c)
  {
    var g := Swapped(h, k, c);
    forall i: nat | !ChildOf(i, c) ensures InOrder(g, i) {
      if ChildOf(i, k) {
        assert i < |h| ==> !Precedes(h[i], h[c]);
      } else if i == k {
        assert ChildOf(c, k);
      } else {
        assert InOrder(h, i);
      }
    }
    forall i: nat | ChildOf(i, c) && i < |g| ensures !Precedes(g[i], g[(c - 1) / 2]) {
      assert InOrder(h, i);
    }
  }

  /** Nothing below `k` is out of order. */
  lemma {:induction false} SettledDown(h: Heap, k: nat)
    requires k < |h| && OrderedExceptDown(h, k)
    requires 2 * k + 1 < |h| ==> exists c: nat | ChildOf(c, k) && c < |h| && LeastOfChildren(h, k, c) :: !Precedes(h[c], h[k])
    ensures HeapOrdered(h)
  {
  }

  ghost predicate LeastOfChildren(h: Heap, k: nat, c: nat)
    requires c < |h|
  {
    forall i: nat | ChildOf(i, k) && i < |h| :: !Precedes(h[i], h[c])
  }

  lemma {:induction false} LeastChild(h: Heap, k: nat, c: nat)
    requires 2 * k + 1 < |h|
    requires c == if 2 * k + 2 < |h| && Precedes(h[2 * k + 2], h[2 * k + 1]) then 2 * k + 2 else 2 * k + 1
    ensures ChildOf(c, k) && LeastOfChildren(h, k, c)
  {
  }

  // ---- adding and removing one timer ----

  lemma {:induction false} NotQueued(h: Heap, buckets: Buckets, ready: ReadyMap, loc: Locations, live: Book, d: DeadlineEntry)
    requires Holds(h, buckets, ready, loc, live) && d.sequence !in live
    ensures d !in h
  {
  }

  lemma {:induction false} LocatedHeld(h: Heap, buckets: Buckets, ready: ReadyMap, loc: Locations, live: Book, s: nat)
    requires Holds(h, buckets, ready, loc, live) && s in live
    ensures s in loc
  {
  }

  /** Where a location leads. */
  lemma {:induction false} HeldAt(h: Heap, buckets: Buckets, ready: ReadyMap, loc: Locations, live: Book, s: nat)
    requires Holds(h, buckets, ready, loc, live) && s in live
    ensures s in loc
    ensures loc[s].AtDeadline? ==> loc[s].index < |h| && h[loc[s].index].sequence == s
  {
    assert Placed(s, h, buckets, ready, loc);
  }

  lemma {:induction false} HoldsWithDeadline(h: Heap, buckets: Buckets, ready: ReadyMap, loc: Locations, live: Book, d: DeadlineEntry)
    requires Holds(h, buckets, ready, loc, live)
    requires d.sequence !in live
    ensures Holds(h + [d], buckets, ready, loc[d.sequence := AtDeadline(|h|)], live[d.sequence := EntryOf(d)])
  {
    var h' := h + [d];
    var loc' := loc[d.sequence := AtDeadline(|h|)];
    var live' := live[d.sequence := EntryOf(d)];
    assert Located(h', loc') && HeapHeld(h', live');
    assert FramesHeld(buckets, loc', live');
    assert ReadyHeld(ready, loc', live');
    forall s | s in live' ensures Placed(s, h', buckets, ready, loc') {
      assert s in live ==> Placed(s, h, buckets, ready, loc);
    }
  }

  lemma {:induction false} CountedWithDeadline(targets: Targets, h: Heap, d: DeadlineEntry)
    requires Counted(targets, h) && d !in h
    ensures Counted(targets[d.target := (if d.target in targets then targets[d.target] else 0) + 1], h + [d])
  {
    var h' := h + [d];
    assert d in h';
    assert forall e | e in h :: e in h';
    assert AtTarget(h', d.target) == AtTarget(h, d.target) + {d};
    if d.target !in targets {
      assert AtTarget(h, d.target) == {};
    }
    forall t | t != d.target ensures AtTarget(h', t) == AtTarget(h, t) {
    }
  }

  lemma {:induction false} AppendOrder(h: Heap, d: DeadlineEntry)
    requires HeapOrdered(h)
    ensures OrderedExceptUp(h + [d], |h|)
  {
    forall i: nat | i != |h| ensures InOrder(h + [d], i) {
      assert InOrder(h, i);
    }
  }

  lemma {:induction false} HoldsLocated(h: Heap, buckets: Buckets, ready: ReadyMap, loc: Locations, live: Book)
    requires Holds(h, buckets, ready, loc, live)
    ensures Located(h, loc)
    ensures h != [] ==> h[|h| - 1].sequence in loc
  {
  }

  lemma {:induction false} CountedPositive(targets: Targets, h: Heap, k: nat)
    requires Counted(targets, h) && k < |h|
    ensures h[k].target in targets && 0 < targets[h[k].target]
  {
  }

  /** Moving the last entry into slot `k` and dropping the last slot. */
  function Plucked(h: Heap, k: nat): (h': Heap)
    requires k < |h|
    ensures |h'| == |h| - 1
  {
    Swapped(h, k, |h| - 1)[..|h| - 1]
  }

  function PluckedLocations(h: Heap, loc: Locations, k: nat): Locations
    requires k < |h|
  {
    loc[h[|h| - 1].sequence := AtDeadline(k)] - {h[k].sequence}
  }

  lemma {:induction false} PluckedIndex(h: Heap, k: nat, i: nat)
    requires k < |h| && i < |h| - 1
    ensures var j := if i == k then |h| - 1 else i; Plucked(h, k)[i] == h[j] && j != k
  {
  }

  lemma {:induction false} PluckedMembers(h: Heap, loc: Locations, k: nat)
    requires k < |h| && Located(h, loc)
    ensures PluckedLocations(h, loc, k).Keys == loc.Keys - {h[k].sequence}
    ensures forall e :: e in Plucked(h, k) <==> e in h && e != h[k]
  {
    var last := |h| - 1;
    var h' := Plucked(h, k);
    forall e ensures e in h' <==> e in h && e != h[k] {
      if e in h && e != h[k] {
        var j :| 0 <= j < |h| && h[j] == e;
        assert h'[if j == last then k else j] == e;
      }
      if e in h' {
        var i :| 0 <= i < |h'| && h'[i] == e;
        PluckedIndex(h, k, i);
        var j := if i == k then last else i;
        assert loc[h[j].sequence] == AtDeadline(j) && loc[h[k].sequence] == AtDeadline(k);
      }
    }
  }

  /** What is kept in a frame bucket, or is ready, does not depend on the rest. */
  lemma {:induction false} FramesKept(buckets: Buckets, loc: Locations, live: Book, loc': Locations, live': Book)
    requires FramesHeld(buckets, loc, live)
    requires forall s | s in loc && loc[s].AtFrame? && s in live :: s in loc' && loc'[s] == loc[s] && s in live' && live'[s] == live[s]
    ensures FramesHeld(buckets, loc', live')
  {
  }

  lemma {:induction false} ReadyKept(ready: ReadyMap, loc: Locations, live: Book, loc': Locations, live': Book)
    requires ReadyHeld(ready, loc, live)
    requires forall s | s in loc && loc[s].Ready? && s in live :: s in loc' && loc'[s] == loc[s] && s in live' && live'[s] == live[s]
    ensures ReadyHeld(ready, loc', live')
  {
  }

  lemma {:induction false} HoldsPlucked(h: Heap, buckets: Buckets, ready: ReadyMap, loc: Locations, live: Book, k: nat)
    requires Holds(h, buckets, ready, loc, live)
    requires k < |h|
    ensures Holds(Plucked(h, k), buckets, ready, PluckedLocations(h, loc, k), live - {h[k].sequence})
  {
    hide FramesHeld, ReadyHeld, Located, HeapHeld, Plucked, Placed;
    var loc', live' := PluckedLocations(h, loc, k), live - {h[k].sequence};
    PluckedHeld(h, loc, live, k);
    FramesKept(buckets, loc, live, loc', live');
    ReadyKept(ready, loc, live, loc', live');
    forall s | s in live' ensures Placed(s, Plucked(h, k), buckets, ready, loc') {
      PluckedPlaced(s, h, buckets, ready, loc, k);
    }
  }

  lemma {:induction false} PluckedHeld(h: Heap, loc: Locations, live: Book, k: nat)
    requires Located(h, loc) && HeapHeld(h, live) && k < |h|
    ensures Located(Plucked(h, k), PluckedLocations(h, loc, k)) && HeapHeld(Plucked(h, k), live - {h[k].sequence})
    ensures forall s | s in loc && !loc[s].AtDeadline? :: s != h[k].sequence && s != h[|h| - 1].sequence
  {
    var last, h' := |h| - 1, Plucked(h, k);
    assert loc[h[last].sequence] == AtDeadline(last) && loc[h[k].sequence] == AtDeadline(k);
    forall i | 0 <= i < |h'| ensures h'[i] == h[if i == k then last else i] && h'[i].sequence != h[k].sequence {
      PluckedIndex(h, k, i);
      assert loc[h[if i == k then last else i].sequence] == AtDeadline(if i == k then last else i);
    }
  }

  lemma {:induction false} PluckedPlaced(s: nat, h: Heap, buckets: Buckets, ready: ReadyMap, loc: Locations, k: nat)
    requires Placed(s, h, buckets, ready, loc) && Located(h, loc) && k < |h| && s != h[k].sequence
    ensures Placed(s, Plucked(h, k), buckets, ready, PluckedLocations(h, loc, k))
  {
    var last := |h| - 1;
    assert loc[h[last].sequence] == AtDeadline(last);
    if loc[s].AtDeadline? {
      PluckedIndex(h, k, if loc[s].index == last then k else loc[s].index);
    }
  }

  lemma {:induction false} CountedWithout(targets: Targets, h: Heap, h': Heap, d: DeadlineEntry)
    requires Counted(targets, h) && d in h
    requires forall e :: e in h' <==> e in h && e != d
    ensures d.target in targets
    ensures Counted(if targets[d.target] == 1 then targets - {d.target}
                    else targets[d.target := targets[d.target] - 1], h')
  {
    assert d in AtTarget(h, d.target);
    assert AtTarget(h', d.target) == AtTarget(h, d.target) - {d};
    forall t | t != d.target ensures AtTarget(h', t) == AtTarget(h, t) {
    }
    assert targets[d.target] == 1 ==> AtTarget(h', d.target) == {};
    forall e | e in h' ensures e.target != d.target || targets[d.target] != 1 {
      assert e.target == d.target ==> e in AtTarget(h', d.target);
    }
  }

  lemma {:induction false} PluckedOrder(h: Heap, k: nat)
    requires HeapOrdered(h) && k < |h|
    ensures forall i: nat | i != k && !ChildOf(i, k) :: InOrder(Plucked(h, k), i)
    ensures Bridged(Plucked(h, k), k)
  {
    var h' := Plucked(h, k);
    forall i: nat | i != k && !ChildOf(i, k) ensures InOrder(h', i) {
      assert InOrder(h, i);
    }
    forall i: nat | 0 < k < |h'| && ChildOf(i, k) && i < |h'| ensures !Precedes(h'[i], h'[(k - 1) / 2]) {
      assert InOrder(h, i) && InOrder(h, k);
    }
  }

  /** Taking the whole heap away leaves the frame buckets and the ready map. */
  lemma {:induction false} HoldsEmptied(h: Heap, buckets: Buckets, ready: ReadyMap, loc: Locations, live: Book)
    requires Holds(h, buckets, ready, loc, live)
    ensures Holds([], buckets, ready, loc, live - Sequences(h))
    ensures Counted(map[], []) && HeapOrdered([])
  {
    NotInHeap(h, loc);
    var rest := live - Sequences(h);
    assert FramesHeld(buckets, loc, rest);
    assert ReadyHeld(ready, loc, rest);
    forall s | s in rest ensures Placed(s, [], buckets, ready, loc) {
      assert Placed(s, h, buckets, ready, loc);
    }
    assert AllPlaced([], buckets, ready, loc, rest);
  }

  lemma {:induction false} HoldsWithoutBucket(h: Heap, buckets: Buckets, ready: ReadyMap, loc: Locations, live: Book, t: nat)
    requires Holds(h, buckets, ready, loc, live) && t in buckets
    ensures Holds(h, buckets - {t}, ready, loc, live - buckets[t].Keys)
  {
    var rest := live - buckets[t].Keys;
    assert forall s | s in buckets[t] :: loc[s] == AtFrame(t);
    assert Located(h, loc) && HeapHeld(h, rest);
    assert FramesHeld(buckets - {t}, loc, rest);
    assert ReadyHeld(ready, loc, rest);
    forall s | s in rest ensures Placed(s, h, buckets - {t}, ready, loc) {
      assert Placed(s, h, buckets, ready, loc);
    }
  }

  lemma {:induction false} HoldsWithoutReady(h: Heap, buckets: Buckets, ready: ReadyMap, loc: Locations, live: Book)
    requires Holds(h, buckets, ready, loc, live)
    ensures Holds(h, buckets, map[], loc, live - ready.Keys)
  {
    var rest := live - ready.Keys;
    assert Located(h, loc) && HeapHeld(h, rest);
    assert FramesHeld(buckets, loc, rest);
    forall s | s in rest ensures Placed(s, h, buckets, map[], loc) {
      assert Placed(s, h, buckets, ready, loc);
    }
  }

  /** Locations of timers that are not held do not matter. */
  lemma {:induction false} HoldsForget(h: Heap, buckets: Buckets, ready: ReadyMap, loc: Locations, live: Book, s: nat)
    requires Holds(h, buckets, ready, loc, live) && s !in live
    ensures Holds(h, buckets, ready, loc - {s}, live)
  {
    forall k | k in live ensures Placed(k, h, buckets, ready, loc - {s}) {
      assert Placed(k, h, buckets, ready, loc);
    }
  }

  lemma {:induction false} HoldsWithReady(h: Heap, buckets: Buckets, ready: ReadyMap, loc: Locations, live: Book, e: Entry)
    requires Holds(h, buckets, ready, loc, live) && e.sequence !in live && e.ready
    ensures Holds(h, buckets, ready[e.sequence := e.id], loc[e.sequence := Ready], live[e.sequence := e])
  {
    var live' := live[e.sequence := e];
    var loc' := loc[e.sequence := Ready];
    var ready' := ready[e.sequence := e.id];
    assert Located(h, loc') && HeapHeld(h, live');
    assert FramesHeld(buckets, loc', live');
    assert ReadyHeld(ready', loc', live');
    forall k | k in live' ensures Placed(k, h, buckets, ready', loc') {
      assert k in live ==> Placed(k, h, buckets, ready, loc);
    }
  }

  lemma {:induction false} FramesWith(buckets: Buckets, loc: Locations, live: Book, s: nat, id: nat, t: nat)
    requires FramesHeld(buckets, loc, live) && s !in live
    ensures var bucket := (if t in buckets then buckets[t] else map[])[s := id];
            FramesHeld(buckets[t := bucket], loc[s := AtFrame(t)], live[s := Entry(s, id, Frame(t), false)])
  {
    var bucket: map<nat, nat> := (if t in buckets then buckets[t] else map[])[s := id];
    var buckets', loc', live' := buckets[t := bucket], loc[s := AtFrame(t)], live[s := Entry(s, id, Frame(t), false)];
    assert s in bucket.Keys;
    forall u, k | u in buckets' && k in buckets'[u]
      ensures k in live' && live'[k] == Entry(k, buckets'[u][k], Frame(u), false) && k in loc' && loc'[k] == AtFrame(u)
    {
      if k != s {
        assert u in buckets && k in buckets[u];
      }
    }
  }

  lemma {:induction false} FramesWithout(buckets: Buckets, loc: Locations, live: Book, s: nat, t: nat)
    requires FramesHeld(buckets, loc, live) && t in buckets && s in buckets[t]
    ensures var bucket := buckets[t] - {s};
            FramesHeld(if bucket == map[] then buckets - {t} else buckets[t := bucket], loc - {s}, live - {s})
  {
    var bucket := buckets[t] - {s};
    var buckets' := if bucket == map[] then buckets - {t} else buckets[t := bucket];
    assert bucket != map[] ==> bucket.Keys != {};
    forall u, k | u in buckets' && k in buckets'[u]
      ensures k in live - {s} && (live - {s})[k] == Entry(k, buckets'[u][k], Frame(u), false) && k in loc - {s} && (loc - {s})[k] == AtFrame(u)
    {
      assert u in buckets && k in buckets[u];
      assert loc[s] == AtFrame(t) && loc[k] == AtFrame(u);
    }
  }

  lemma {:induction false} ReadyBeside(ready: ReadyMap, loc: Locations, live: Book, s: nat, l: Location, e: Entry)
    requires ReadyHeld(ready, loc, live) && s !in live
    ensures ReadyHeld(ready, loc[s := l], live[s := e])
  {
  }

  lemma {:induction false} HoldsWithFrame(h: Heap, buckets: Buckets, ready: ReadyMap, loc: Locations, live: Book, s: nat, id: nat, t: nat)
    requires Holds(h, buckets, ready, loc, live) && s !in live
    ensures var bucket := (if t in buckets then buckets[t] else map[])[s := id];
            Holds(h, buckets[t := bucket], ready, loc[s := AtFrame(t)], live[s := Entry(s, id, Frame(t), false)])
  {
    hide FramesHeld, ReadyHeld;
    var bucket := (if t in buckets then buckets[t] else map[])[s := id];
    var buckets' := buckets[t := bucket];
    var live' := live[s := Entry(s, id, Frame(t), false)];
    var loc' := loc[s := AtFrame(t)];
    assert s in bucket;
    assert Located(h, loc') && HeapHeld(h, live');
    FramesWith(buckets, loc, live, s, id, t);
    ReadyBeside(ready, loc, live, s, AtFrame(t), live'[s]);
    forall k | k in live' ensures Placed(k, h, buckets', ready, loc') {
      assert k in live ==> Placed(k, h, buckets, ready, loc);
    }
  }

  lemma {:induction false} HoldsUnframed(h: Heap, buckets: Buckets, ready: ReadyMap, loc: Locations, live: Book, s: nat, t: nat)
    requires Holds(h, buckets, ready, loc, live) && s in live && loc[s] == AtFrame(t)
    ensures t in buckets && s in buckets[t]
    ensures var bucket := buckets[t] - {s};
            Holds(h, if bucket == map[] then buckets - {t} else buckets[t := bucket], ready, loc - {s}, live - {s})
  {
    hide FramesHeld, ReadyHeld;
    assert Placed(s, h, buckets, ready, loc);
    var bucket := buckets[t] - {s};
    var buckets' := if bucket == map[] then buckets - {t} else buckets[t := bucket];
    var live' := live - {s};
    var loc' := loc - {s};
    assert Located(h, loc') && HeapHeld(h, live');
    FramesWithout(buckets, loc, live, s, t);
    ReadyKept(ready, loc, live, loc', live');
    forall k | k in live' ensures Placed(k, h, buckets', ready, loc') {
      assert Placed(k, h, buckets, ready, loc);
      assert loc[k] == AtFrame(t) ==> k in bucket;
    }
  }

  lemma {:induction false} HoldsUnready(h: Heap, buckets: Buckets, ready: ReadyMap, loc: Locations, live: Book, s: nat)
    requires Holds(h, buckets, ready, loc, live) && s in live && loc[s] == Ready
    ensures s in ready && ready[s] == live[s].id
    ensures Holds(h, buckets, ready - {s}, loc - {s}, live - {s})
  {
    assert Placed(s, h, buckets, ready, loc);
    var live' := live - {s};
    var loc' := loc - {s};
    assert Located(h, loc') && HeapHeld(h, live');
    assert FramesHeld(buckets, loc', live');
    assert ReadyHeld(ready - {s}, loc', live');
    forall k | k in live' ensures Placed(k, h, buckets, ready - {s}, loc') {
      assert Placed(k, h, buckets, ready, loc);
    }
  }

  lemma {:induction false} ReadyIff(h: Heap, buckets: Buckets, ready: ReadyMap, loc: Locations, live: Book)
    requires Holds(h, buckets, ready, loc, live)
    ensures forall s | s in live :: live[s].ready <==> s in ready
    ensures forall s | s in ready :: s in live && live[s].id == ready[s]
  {
    forall s | s in live ensures live[s].ready <==> s in ready {
      assert Placed(s, h, buckets, ready, loc);
    }
  }

  /** Where each timer that is not ready sits: deadlines in the heap, frames in their bucket. */
  lemma {:induction false} WhereHeld(h: Heap, buckets: Buckets, ready: ReadyMap, loc: Locations, live: Book, s: nat)
    requires Holds(h, buckets, ready, loc, live) && s in live && !live[s].ready
    ensures match live[s].kind
            case Deadline(t) => DeadlineEntry(live[s].id, s, t) in h
            case Frame(t) => t in buckets && s in buckets[t] && buckets[t][s] == live[s].id
  {
    assert Placed(s, h, buckets, ready, loc);
    if loc[s].AtDeadline? {
      assert live[s] == EntryOf(h[loc[s].index]);
    }
  }

  lemma {:induction false} RootHeld(h: Heap, live: Book)
    requires HeapHeld(h, live)
    ensures h == [] || h[0].sequence in live
  {
  }

  lemma {:induction false} BucketsHeld(buckets: Buckets, loc: Locations, live: Book)
    requires FramesHeld(buckets, loc, live)
    ensures buckets == map[] || live != map[]
  {
    if t :| t in buckets {
      var s :| s in buckets[t].Keys;
      assert s in live;
    }
  }

  lemma {:induction false} HoldsNothing(h: Heap, buckets: Buckets, ready: ReadyMap, loc: Locations, live: Book)
    requires Holds(h, buckets, ready, loc, live) && live == map[]
    ensures h == [] && buckets == map[] && ready == map[]
    ensures Holds(h, buckets, ready, map[], live)
  {
    RootHeld(h, live);
    BucketsHeld(buckets, loc, live);
    assert ready.Keys <= live.Keys;
  }

  // ---- the id index ----

  lemma {:induction false} IndexedPush(ids: map<nat, IdSequences>, live: Book, e: Entry)
    requires Indexed(ids, live) && e.sequence !in live
    ensures Indexed(ids[e.id := if e.id !in ids then One(e.sequence)
                                else Many(SequencesOf(ids[e.id]) + {e.sequence})], live[e.sequence := e])
  {
  }

  ghost function WithId(book: Book, id: nat): set<nat> {
    set k | k in book && book[k].id == id
  }

  /** Dropping an id from the index drops exactly its timers. */
  lemma {:induction false} UnindexId(ids: map<nat, IdSequences>, live: Book, id: nat)
    requires Indexed(ids, live)
    ensures id in ids <==> WithId(live, id) != {}
    ensures WithId(live, id) <= live.Keys
    ensures id in ids ==> SequencesOf(ids[id]) == WithId(live, id)
    ensures Indexed(ids - {id}, live - WithId(live, id))
  {
    if id in ids {
      assert SequencesOf(ids[id]) == WithId(live, id);
    }
  }

  function Unlinked(ids: map<nat, IdSequences>, id: nat, sequence: nat): map<nat, IdSequences> {
    if id !in ids then ids
    else match ids[id]
      case One(_) => ids - {id}
      case Many(ss) => if ss - {sequence} == {} then ids - {id} else ids[id := Many(ss - {sequence})]
  }

  lemma {:induction false} IndexedUnlink(ids: map<nat, IdSequences>, live: Book, sequence: nat)
    requires Indexed(ids, live) && sequence in live
    ensures Indexed(Unlinked(ids, live[sequence].id, sequence), live - {sequence})
  {
    var id := live[sequence].id;
    var ids' := Unlinked(ids, id, sequence);
    var live' := live - {sequence};
    assert sequence in SequencesOf(ids[id]);
    assert ids[id].One? ==> SequencesOf(ids[id]) == {sequence};
    assert ids[id].Many? ==> SequencesOf(ids[id]) - {sequence} == ids[id].sequences - {sequence};
    forall i, s | i in ids' && s in SequencesOf(ids'[i]) ensures s in live' && live'[s].id == i {
      assert i in ids && s in SequencesOf(ids[i]);
    }
    forall s | s in live' ensures live'[s].id in ids' && s in SequencesOf(ids'[live'[s].id]) {
      assert live[s].id in ids && s in SequencesOf(ids[live[s].id]);
    }
  }

  // ---- draining the heap ----

  ghost predicate IsDeadline(live: Book, s: nat) {
    s in live && live[s].kind.Deadline? && !live[s].ready
  }

  /** `due` has deadlines of `live` that are due, each once. */
  ghost predicate TakenDeadlines(due: Heap, live: Book, now: Instant) {
    && (forall i | 0 <= i < |due| :: due[i].sequence in live && live[due[i].sequence] == EntryOf(due[i]) && due[i].target <= now)
    && (forall i, j | 0 <= i < j < |due| :: due[i].sequence != due[j].sequence)
  }

  /** ... and none is missing. */
  ghost predicate AllTaken(due: Heap, live: Book, now: Instant) {
    forall s | IsDeadline(live, s) && live[s].kind.target <= now :: s in Sequences(due)
  }

  /** The heap has every unready deadline of `live`, and nothing twice. */
  ghost predicate HeapIs(h: Heap, live: Book) {
    && (forall i | 0 <= i < |h| :: h[i].sequence in live && live[h[i].sequence] == EntryOf(h[i]))
    && (forall i, j | 0 <= i < j < |h| :: h[i].sequence != h[j].sequence)
    && (forall s | IsDeadline(live, s) :: s in Sequences(h))
  }

  lemma {:induction false} HeapIsDeadlines(h: Heap, buckets: Buckets, ready: ReadyMap, loc: Locations, live: Book)
    requires Holds(h, buckets, ready, loc, live)
    ensures HeapIs(h, live)
  {
    forall i, j | 0 <= i < j < |h| ensures h[i].sequence != h[j].sequence {
      assert loc[h[i].sequence] == AtDeadline(i) && loc[h[j].sequence] == AtDeadline(j);
    }
    forall s | IsDeadline(live, s) ensures s in Sequences(h) {
      WhereHeld(h, buckets, ready, loc, live, s);
      var i :| 0 <= i < |h| && h[i] == DeadlineEntry(live[s].id, s, live[s].kind.target);
    }
  }

  lemma {:induction false} BulkTaken(targets: Targets, h: Heap, live: Book, now: Instant)
    requires Counted(targets, h) && HeapIs(h, live)
    requires forall t | t in targets :: t <= now
    ensures TakenDeadlines(h, live, now) && AllTaken(h, live, now)
    ensures forall s | IsDeadline(live, s) :: s in Sequences(h)
  {
    forall i | 0 <= i < |h| ensures h[i].target <= now {
      assert h[i] in h;
    }
  }

  lemma {:induction false} NothingTaken(live: Book, now: Instant)
    ensures TakenDeadlines([], live, now)
    ensures live - Sequences([]) == live
  {
    assert Sequences([]) == {};
  }

  /** Taking the root of the remaining heap. */
  lemma {:induction false} TakeOne(h: Heap, due: Heap, live: Book, now: Instant)
    requires h != [] && HeapIs(h, live - Sequences(due)) && h[0].target <= now
    requires TakenDeadlines(due, live, now)
    ensures TakenDeadlines(due + [h[0]], live, now)
    ensures live - Sequences(due + [h[0]]) == live - Sequences(due) - {h[0].sequence}
    ensures Sequences(due + [h[0]]) == Sequences(due) + {h[0].sequence}
  {
    var due' := due + [h[0]];
    SequencesSnoc(due, h[0]);
    forall i, j | 0 <= i < j < |due'| ensures due'[i].sequence != due'[j].sequence {
      if j == |due| {
        assert due[i].sequence in Sequences(due);
      }
    }
  }

  lemma {:induction false} SequencesSnoc(due: Heap, d: DeadlineEntry)
    ensures Sequences(due + [d]) == Sequences(due) + {d.sequence}
  {
    var due' := due + [d];
    forall s | s in Sequences(due) + {d.sequence} ensures s in Sequences(due') {
      if s in Sequences(due) {
        var i :| 0 <= i < |due| && due[i].sequence == s;
        assert due'[i].sequence == s;
      } else {
        assert due'[|due|].sequence == s;
      }
    }
  }

  /** When the root is not due nothing else in the heap is. */
  lemma {:induction false} RestNotDue(h: Heap, due: Heap, live: Book, now: Instant)
    requires HeapOrdered(h) && HeapIs(h, live - Sequences(due)) && TakenDeadlines(due, live, now)
    requires h == [] || now < h[0].target
    ensures AllTaken(due, live, now)
    ensures h == [] <==> forall s | IsDeadline(live, s) :: s in Sequences(due)
  {
    var left := live - Sequences(due);
    forall s | IsDeadline(live, s) && s !in Sequences(due) ensures now < live[s].kind.target && h != [] {
      assert IsDeadline(left, s);
      var i :| 0 <= i < |h| && h[i].sequence == s;
      RootIsLeast(h, i);
    }
    if h != [] {
      assert h[0].sequence in left;
      assert IsDeadline(live, h[0].sequence);
    }
  }
}
