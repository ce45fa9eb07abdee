/** The timer queue of the async runtime: an indexed min-heap of deadlines with a target multiset,
    frame buckets, a ready map and an id index, all updated in place. Every method is specified by
    what it does to the pending list. */
module TimerQueues {
  import opened TimerSpec
  import opened TimerHeap
  import opened TimerListing
  import opened TimerPairs
  import OrderedMap

  const U64_MAX: nat := 0xFFFF_FFFF_FFFF_FFFF

  class TimerQueue {
    var deadlineHeap: Heap
    var deadlineTargets: Targets
    var frameBuckets: Buckets
    var ready: ReadyMap
    var idSequences: map<nat, IdSequences>
    var locations: Locations
    var nextSequence: nat
    /** Entries visited so far while looking for eligible ones. */
    var examined: nat
    ghost var book: Book

    /** Heap, target index, buckets and ready map hold exactly the timers of `live`. */
    ghost predicate Stored(live: Book)
      reads this`deadlineHeap, this`deadlineTargets, this`frameBuckets, this`ready, this`locations
    {
      && HeapOrdered(deadlineHeap)
      && Counted(deadlineTargets, deadlineHeap)
      && Holds(deadlineHeap, frameBuckets, ready, locations, live)
    }

    ghost predicate Valid()
      reads this
    {
      && Keyed(book) && Stored(book) && Indexed(idSequences, book)
      && locations.Keys == book.Keys
      && (forall s | s in book :: s < nextSequence)
      && nextSequence <= U64_MAX
    }

    /** The pending timers in insertion order. */
    ghost function Pending(): seq<Entry>
      reads this
      requires Valid()
    {
      Listing(book)
    }

    constructor ()
      ensures Valid() && Pending() == []
      ensures nextSequence == 0 && examined == 0
    {
      deadlineHeap, deadlineTargets, frameBuckets := [], map[], map[];
      ready, idSequences, locations := map[], map[], map[];
      nextSequence, examined := 0, 0;
      book := map[];
      new;
      ListingUnique(book, []);
    }

    method Len() returns (n: nat)
      requires Valid()
      ensures n == |Pending()|
    {
      assert |locations.Keys| == |book.Keys|;
      n := |locations|;
    }

    /** Queues a timer. `ok` is false where the source panics: the insertion sequence is exhausted. */
    method Push(id: nat, kind: Kind) returns (ok: bool)
      requires Valid()
      modifies this
      ensures Valid() && examined == old(examined)
      ensures ok <==> old(nextSequence) < U64_MAX
      ensures ok ==> nextSequence == old(nextSequence) + 1
      ensures ok ==> Pending() == old(Pending()) + [Entry(old(nextSequence), id, kind, false)]
      ensures !ok ==> Pending() == old(Pending()) && nextSequence == old(nextSequence)
    {
      hide Stored, Holds, Counted, HeapOrdered, Indexed, Listing, Lists, Sorted, Keyed;
      var sequence := nextSequence;
      if sequence == U64_MAX {
        return false;
      }
      ghost var e := Entry(sequence, id, kind, false);
      nextSequence := nextSequence + 1;
      LinkIdSequence(id, sequence, e);
      Enqueue(id, sequence, kind);
      Book(e);
      ok := true;
    }

    /** The book follows a new timer. */
    ghost method Book(e: Entry)
      requires Keyed(book) && (forall s | s in book :: s < e.sequence) && e.sequence < nextSequence <= U64_MAX
      requires Stored(book[e.sequence := e]) && Indexed(idSequences, book[e.sequence := e])
      requires locations.Keys == book.Keys + {e.sequence}
      modifies this`book
      ensures Valid() && Pending() == Listing(old(book)) + [e]
    {
      hide Stored, Indexed, Listing, Lists, Sorted, Keyed;
      PushListing(book, e);
      book := book[e.sequence := e];
    }

    method Enqueue(id: nat, sequence: nat, kind: Kind)
      requires Stored(book) && sequence !in book
      modifies this`deadlineHeap, this`deadlineTargets, this`frameBuckets, this`locations
      ensures Stored(book[sequence := Entry(sequence, id, kind, false)])
      ensures locations.Keys == old(locations.Keys) + {sequence}
    {
      hide Holds, Counted, HeapOrdered;
      match kind {
        case Deadline(target) => PushDeadline(id, sequence, target);
        case Frame(target) => PushFrame(id, sequence, target);
      }
    }

    method LinkIdSequence(id: nat, sequence: nat, ghost e: Entry)
      requires Indexed(idSequences, book) && sequence !in book && e.sequence == sequence && e.id == id
      modifies this`idSequences
      ensures Indexed(idSequences, book[sequence := e])
    {
      IndexedPush(idSequences, book, e);
      if id !in idSequences {
        idSequences := idSequences[id := One(sequence)];
      } else {
        match idSequences[id] {
          case One(first) =>
            assert {first, sequence} == {first} + {sequence};
            idSequences := idSequences[id := Many({first, sequence})];
          case Many(sequences) =>
            idSequences := idSequences[id := Many(sequences + {sequence})];
        }
      }
    }

    method PushDeadline(id: nat, sequence: nat, target: Instant)
      requires Stored(book) && sequence !in book
      modifies this`deadlineHeap, this`deadlineTargets, this`locations
      ensures Stored(book[sequence := Entry(sequence, id, Deadline(target), false)])
      ensures locations.Keys == old(locations.Keys) + {sequence}
    {
      ghost var d := DeadlineEntry(id, sequence, target);
      ghost var live := book[sequence := EntryOf(d)];
      NotQueued(deadlineHeap, frameBuckets, ready, locations, book, d);
      hide Holds, Counted, HeapOrdered, OrderedExceptUp;
      HoldsWithDeadline(deadlineHeap, frameBuckets, ready, locations, book, d);
      CountedWithDeadline(deadlineTargets, deadlineHeap, d);
      AppendOrder(deadlineHeap, d);
      AppendDeadline(id, sequence, target);
      RaiseLast(live);
    }

    /** Moves the last entry up to where it belongs. */
    method RaiseLast(ghost live: Book)
      requires deadlineHeap != [] && OrderedExceptUp(deadlineHeap, |deadlineHeap| - 1)
      requires Counted(deadlineTargets, deadlineHeap) && Holds(deadlineHeap, frameBuckets, ready, locations, live)
      modifies this`deadlineHeap, this`locations
      ensures Stored(live) && locations.Keys == old(locations.Keys)
    {
      hide Holds, Counted, HeapOrdered, OrderedExceptUp, Permuted;
      ghost var h, loc := deadlineHeap, locations;
      HoldsLocated(h, frameBuckets, ready, loc, live);
      SiftDeadlineUp(|deadlineHeap| - 1);
      HoldsPermuted(h, deadlineHeap, frameBuckets, ready, loc, locations, live);
      CountedPermuted(deadlineTargets, h, deadlineHeap);
    }

    method AppendDeadline(id: nat, sequence: nat, target: Instant)
      modifies this`deadlineHeap, this`deadlineTargets, this`locations
      ensures deadlineHeap == old(deadlineHeap) + [DeadlineEntry(id, sequence, target)]
      ensures deadlineTargets == old(deadlineTargets)[target := (if target in old(deadlineTargets) then old(deadlineTargets)[target] else 0) + 1]
      ensures locations == old(locations)[sequence := AtDeadline(|old(deadlineHeap)|)]
    {
      var index := |deadlineHeap|;
      deadlineHeap := deadlineHeap + [DeadlineEntry(id, sequence, target)];
      if target !in deadlineTargets {
        deadlineTargets := deadlineTargets[target := 0];
      }
      deadlineTargets := deadlineTargets[target := deadlineTargets[target] + 1];
      locations := locations[sequence := AtDeadline(index)];
    }

    method PushFrame(id: nat, sequence: nat, target: nat)
      requires Stored(book) && sequence !in book
      modifies this`frameBuckets, this`locations
      ensures Stored(book[sequence := Entry(sequence, id, Frame(target), false)])
      ensures locations.Keys == old(locations.Keys) + {sequence}
    {
      HoldsWithFrame(deadlineHeap, frameBuckets, ready, locations, book, sequence, id, target);
      var bucket := if target in frameBuckets then frameBuckets[target] else map[];
      frameBuckets := frameBuckets[target := bucket[sequence := id]];
      locations := locations[sequence := AtFrame(target)];
    }

    /** Cancels every timer carrying `id`. */
    method Remove(id: nat) returns (removed: bool)
      requires Valid()
      modifies this
      ensures Valid() && Pending() == Without(old(Pending()), id)
      ensures removed <==> |Pending()| != |old(Pending())|
      ensures nextSequence == old(nextSequence) && examined == old(examined)
    {
      hide Stored, Indexed, Listing, Lists, Sorted, Keyed, WithId, Without;
      WithoutListing(book, id);
      WithoutShrinks(book, id);
      ghost var gone := WithId(book, id);
      UnindexId(idSequences, book, id);
      if id !in idSequences {
        assert book - gone == book;
        return false;
      }
      var sequences := idSequences[id];
      idSequences := idSequences - {id};
      RemoveSequences(sequences, book);
      Shed(gone);
      removed := true;
    }

    /** The book follows timers that left everything else. */
    ghost method Shed(gone: set<nat>)
      requires Keyed(book) && Stored(book - gone) && Indexed(idSequences, book - gone) && locations.Keys == book.Keys - gone
      requires (forall s | s in book :: s < nextSequence) && nextSequence <= U64_MAX
      modifies this`book
      ensures Valid() && book == old(book) - gone
    {
      hide Stored, Indexed;
      book := book - gone;
    }

    method RemoveSequences(sequences: IdSequences, ghost live: Book)
      requires Stored(live) && SequencesOf(sequences) <= live.Keys
      modifies this`deadlineHeap, this`deadlineTargets, this`frameBuckets, this`ready, this`locations
      ensures Stored(live - SequencesOf(sequences))
      ensures locations.Keys == old(locations.Keys) - SequencesOf(sequences)
    {
      hide Holds, Counted, HeapOrdered;
      match sequences {
        case One(sequence) =>
          LocatedHeld(deadlineHeap, frameBuckets, ready, locations, live, sequence);
          RemoveFromLocation(sequence, locations[sequence], live);
        case Many(all) =>
          RemoveAll(all, live);
      }
    }

    method RemoveAll(sequences: set<nat>, ghost live: Book)
      requires Stored(live) && sequences <= live.Keys
      modifies this`deadlineHeap, this`deadlineTargets, this`frameBuckets, this`ready, this`locations
      ensures Stored(live - sequences)
      ensures locations.Keys == old(locations.Keys) - sequences
    {
      hide Holds, Counted, HeapOrdered;
      var todo := sequences;
      ghost var left := live;
      while todo != {}
        invariant todo <= sequences && Stored(left)
        invariant left == live - (sequences - todo)
        invariant locations.Keys == old(locations.Keys) - (sequences - todo)
      {
        var sequence: nat := OrderedMap.Least(todo);
        LocatedHeld(deadlineHeap, frameBuckets, ready, locations, left, sequence);
        RemoveFromLocation(sequence, locations[sequence], left);
        todo := todo - {sequence};
        left := left - {sequence};
        assert left == live - (sequences - todo);
      }
      assert sequences - {} == sequences;
    }

    method RemoveFromLocation(sequence: nat, location: Location, ghost live: Book)
      requires Stored(live) && sequence in live && sequence in locations && locations[sequence] == location
      modifies this`deadlineHeap, this`deadlineTargets, this`frameBuckets, this`ready, this`locations
      ensures Stored(live - {sequence})
      ensures locations.Keys == old(locations.Keys) - {sequence}
    {
      hide Holds, Counted, HeapOrdered;
      HeldAt(deadlineHeap, frameBuckets, ready, locations, live, sequence);
      match location {
        case AtDeadline(index) =>
          var removed := RemoveDeadlineAt(index, live);
          assert removed.sequence == sequence;
        case AtFrame(target) =>
          HoldsUnframed(deadlineHeap, frameBuckets, ready, locations, live, sequence, target);
          var bucket := frameBuckets[target] - {sequence};
          frameBuckets := frameBuckets[target := bucket];
          if bucket == map[] {
            frameBuckets := frameBuckets - {target};
            assert frameBuckets == old(frameBuckets) - {target};
          }
          locations := locations - {sequence};
        case Ready =>
          RemoveReady(sequence, live);
      }
    }

    method RemoveReady(sequence: nat, ghost live: Book)
      requires Stored(live) && sequence in live && sequence in locations && locations[sequence] == Ready
      modifies this`ready, this`locations
      ensures Stored(live - {sequence})
      ensures locations.Keys == old(locations.Keys) - {sequence} && ready.Keys == old(ready.Keys) - {sequence}
    {
      hide Holds, Counted, HeapOrdered;
      HoldsUnready(deadlineHeap, frameBuckets, ready, locations, live, sequence);
      ready := ready - {sequence};
      locations := locations - {sequence};
    }

    method UnlinkIdSequence(id: nat, sequence: nat, ghost live: Book)
      requires Indexed(idSequences, live) && sequence in live && live[sequence].id == id
      modifies this`idSequences
      ensures Indexed(idSequences, live - {sequence})
    {
      IndexedUnlink(idSequences, live, sequence);
      var removeId := false;
      if id in idSequences {
        match idSequences[id] {
          case One(only) =>
            removeId := true;
          case Many(sequences) =>
            idSequences := idSequences[id := Many(sequences - {sequence})];
            removeId := sequences - {sequence} == {};
        }
      }
      if removeId {
        idSequences := idSequences - {id};
        assert idSequences == old(idSequences) - {id};
      }
    }

    // ---- the heap ----

    method SwapDeadlines(a: nat, b: nat)
      requires a < |deadlineHeap| && b < |deadlineHeap| && Located(deadlineHeap, locations)
      modifies this`deadlineHeap, this`locations
      ensures deadlineHeap == Swapped(old(deadlineHeap), a, b)
      ensures Located(deadlineHeap, locations)
      ensures Permuted(old(deadlineHeap), deadlineHeap)
      ensures SameElsewhere(old(deadlineHeap), old(locations), locations)
    {
      SwappedPermutes(deadlineHeap, a, b);
      assert deadlineHeap[a].sequence in Sequences(deadlineHeap) && deadlineHeap[b].sequence in Sequences(deadlineHeap);
      deadlineHeap := deadlineHeap[a := deadlineHeap[b]][b := deadlineHeap[a]];
      locations := locations[deadlineHeap[a].sequence := AtDeadline(a)];
      locations := locations[deadlineHeap[b].sequence := AtDeadline(b)];
      assert forall i, j | 0 <= i < j < |old(deadlineHeap)| :: old(deadlineHeap)[i].sequence != old(deadlineHeap)[j].sequence by {
        forall i, j | 0 <= i < j < |old(deadlineHeap)| ensures old(deadlineHeap)[i].sequence != old(deadlineHeap)[j].sequence {
          assert old(locations)[old(deadlineHeap)[i].sequence] == AtDeadline(i);
          assert old(locations)[old(deadlineHeap)[j].sequence] == AtDeadline(j);
        }
      }
    }

    method SiftDeadlineUp(start: nat)
      requires start < |deadlineHeap| && OrderedExceptUp(deadlineHeap, start) && Located(deadlineHeap, locations)
      modifies this`deadlineHeap, this`locations
      ensures HeapOrdered(deadlineHeap) && Located(deadlineHeap, locations)
      ensures Permuted(old(deadlineHeap), deadlineHeap)
      ensures SameElsewhere(old(deadlineHeap), old(locations), locations)
    {
      hide Permuted, SameElsewhere, Located, Swapped;
      SwapStart(deadlineHeap, locations);
      var index: nat := start;
      while 0 < index
        invariant index < |deadlineHeap| && OrderedExceptUp(deadlineHeap, index) && Located(deadlineHeap, locations)
        invariant Permuted(old(deadlineHeap), deadlineHeap)
        invariant SameElsewhere(old(deadlineHeap), old(locations), locations)
      {
        var parent := (index - 1) / 2;
        if !Precedes(deadlineHeap[index], deadlineHeap[parent]) {
          assert InOrder(deadlineHeap, index);
          return;
        }
        SwapUp(deadlineHeap, index);
        ghost var h, loc := deadlineHeap, locations;
        SwapDeadlines(index, parent);
        SwapChain(old(deadlineHeap), old(locations), h, loc, deadlineHeap, locations);
        index := parent;
      }
    }

    method SiftDeadlineDown(start: nat)
      requires start < |deadlineHeap| && OrderedExceptDown(deadlineHeap, start) && Located(deadlineHeap, locations)
      modifies this`deadlineHeap, this`locations
      ensures HeapOrdered(deadlineHeap) && Located(deadlineHeap, locations)
      ensures Permuted(old(deadlineHeap), deadlineHeap)
      ensures SameElsewhere(old(deadlineHeap), old(locations), locations)
    {
      hide OrderedExceptDown, HeapOrdered, ChildOf, Permuted, SameElsewhere, Located, Swapped;
      SwapStart(deadlineHeap, locations);
      var index: nat := start;
      while true
        invariant index < |deadlineHeap| && OrderedExceptDown(deadlineHeap, index) && Located(deadlineHeap, locations)
        invariant Permuted(old(deadlineHeap), deadlineHeap)
        invariant SameElsewhere(old(deadlineHeap), old(locations), locations)
        decreases |deadlineHeap| - index
      {
        var left := index * 2 + 1;
        if left >= |deadlineHeap| {
          SettledDown(deadlineHeap, index);
          return;
        }
        var right := left + 1;
        var child := if right < |deadlineHeap| && Precedes(deadlineHeap[right], deadlineHeap[left]) then right else left;
        LeastChild(deadlineHeap, index, child);
        if !Precedes(deadlineHeap[child], deadlineHeap[index]) {
          SettledDown(deadlineHeap, index);
          return;
        }
        SwapDown(deadlineHeap, index, child);
        ghost var h, loc := deadlineHeap, locations;
        SwapDeadlines(index, child);
        SwapChain(old(deadlineHeap), old(locations), h, loc, deadlineHeap, locations);
        index := child;
      }
    }

    method RemoveDeadlineAt(index: nat, ghost live: Book) returns (removed: DeadlineEntry)
      requires Stored(live) && index < |deadlineHeap|
      modifies this`deadlineHeap, this`deadlineTargets, this`locations
      ensures removed == old(deadlineHeap)[index]
      ensures Stored(live - {removed.sequence})
      ensures locations.Keys == old(locations.Keys) - {removed.sequence}
      ensures |deadlineHeap| == |old(deadlineHeap)| - 1
      ensures forall e :: e in deadlineHeap <==> e in old(deadlineHeap) && e != removed
    {
      hide Holds, Counted, HeapOrdered, Plucked, PluckedLocations, Bridged, InOrder, ChildOf;
      ghost var h := deadlineHeap;
      HoldsPlucked(h, frameBuckets, ready, locations, live, index);
      HoldsLocated(h, frameBuckets, ready, locations, live);
      PluckedMembers(h, locations, index);
      CountedWithout(deadlineTargets, h, Plucked(h, index), h[index]);
      PluckedOrder(h, index);
      CountedPositive(deadlineTargets, h, index);
      removed := PluckDeadline(index);
      Resettle(index, live - {removed.sequence});
      SameMembers(Plucked(h, index), deadlineHeap);
    }

    /** Fills slot `index` with the last entry and takes the removed entry out of both indexes. */
    method PluckDeadline(index: nat) returns (removed: DeadlineEntry)
      requires index < |deadlineHeap|
      requires deadlineHeap[|deadlineHeap| - 1].sequence in locations
      requires deadlineHeap[index].target in deadlineTargets && 0 < deadlineTargets[deadlineHeap[index].target]
      modifies this`deadlineHeap, this`deadlineTargets, this`locations
      ensures removed == old(deadlineHeap)[index]
      ensures deadlineHeap == Plucked(old(deadlineHeap), index)
      ensures locations == PluckedLocations(old(deadlineHeap), old(locations), index)
      ensures deadlineTargets == (if old(deadlineTargets)[removed.target] == 1 then old(deadlineTargets) - {removed.target}
                                  else old(deadlineTargets)[removed.target := old(deadlineTargets)[removed.target] - 1])
    {
      var last := |deadlineHeap| - 1;
      if index != last {
        deadlineHeap := deadlineHeap[index := deadlineHeap[last]][last := deadlineHeap[index]];
        var movedSequence := deadlineHeap[index].sequence;
        locations := locations[movedSequence := AtDeadline(index)];
      }
      removed := deadlineHeap[last];
      deadlineHeap := deadlineHeap[..last];
      locations := locations - {removed.sequence};
      deadlineTargets := deadlineTargets[removed.target := deadlineTargets[removed.target] - 1];
      if deadlineTargets[removed.target] == 0 {
        deadlineTargets := deadlineTargets - {removed.target};
      }
    }

    /** Moves the entry that filled slot `index` up or down to where it belongs. */
    method Resettle(index: nat, ghost live: Book)
      requires Counted(deadlineTargets, deadlineHeap) && Holds(deadlineHeap, frameBuckets, ready, locations, live)
      requires forall i: nat | i != index && !ChildOf(i, index) :: InOrder(deadlineHeap, i)
      requires Bridged(deadlineHeap, index)
      modifies this`deadlineHeap, this`locations
      ensures Stored(live) && locations.Keys == old(locations.Keys)
      ensures Permuted(old(deadlineHeap), deadlineHeap)
    {
      ghost var h, loc := deadlineHeap, locations;
      if index < |deadlineHeap| {
        if 0 < index && Precedes(deadlineHeap[index], deadlineHeap[(index - 1) / 2]) {
          forall i: nat | i != index ensures InOrder(h, i) {
            assert ChildOf(i, index) && i < |h| ==> !Precedes(h[i], h[(index - 1) / 2]);
          }
          SiftDeadlineUp(index);
        } else {
          assert InOrder(deadlineHeap, index);
          SiftDeadlineDown(index);
        }
        HoldsPermuted(h, deadlineHeap, frameBuckets, ready, loc, locations, live);
        CountedPermuted(deadlineTargets, h, deadlineHeap);
      } else {
        assert forall i: nat | ChildOf(i, index) :: InOrder(h, i);
      }
    }

    // ---- eligibility ----

    /** Takes every due deadline out of the heap: all of it at once when the last target is due. */
    method TakeDueDeadlines(now: Instant, ghost live: Book) returns (due: seq<DeadlineEntry>, visited: nat)
      requires Stored(live)
      modifies this`deadlineHeap, this`deadlineTargets, this`locations
      ensures Stored(live - Sequences(due))
      ensures TakenDeadlines(due, live, now) && AllTaken(due, live, now)
      ensures old(locations.Keys) - Sequences(due) <= locations.Keys <= old(locations.Keys)
      ensures visited == |due| + (if deadlineHeap == [] then 0 else 1)
      ensures deadlineHeap == [] <==> forall s | IsDeadline(live, s) :: s in Sequences(due)
    {
      hide Holds, HeapOrdered, Counted, HeapIs, TakenDeadlines, AllTaken;
      HeapIsDeadlines(deadlineHeap, frameBuckets, ready, locations, live);
      if deadlineTargets != map[] && OrderedMap.Greatest(deadlineTargets.Keys) <= now {
        HoldsEmptied(deadlineHeap, frameBuckets, ready, locations, live);
        BulkTaken(deadlineTargets, deadlineHeap, live, now);
        due := deadlineHeap;
        deadlineTargets, deadlineHeap := map[], [];
        return due, |due|;
      }
      due, visited := [], 0;
      ghost var left := live;
      NothingTaken(live, now);
      while deadlineHeap != []
        invariant visited == |due| && Stored(left) && left == live - Sequences(due)
        invariant TakenDeadlines(due, live, now)
        invariant locations.Keys == old(locations.Keys) - Sequences(due)
        decreases |deadlineHeap|
      {
        visited := visited + 1;
        if deadlineHeap[0].target > now {
          break;
        }
        HeapIsDeadlines(deadlineHeap, frameBuckets, ready, locations, left);
        TakeOne(deadlineHeap, due, live, now);
        var removed := RemoveDeadlineAt(0, left);
        due := due + [removed];
        left := left - {removed.sequence};
      }
      HeapIsDeadlines(deadlineHeap, frameBuckets, ready, locations, left);
      RestNotDue(deadlineHeap, due, live, now);
    }

    /** Takes every due frame bucket, first target first. */
    method TakeDueFrames(frame: nat, ghost live: Book) returns (due: seq<Pair>, visited: nat)
      requires Stored(live)
      modifies this`frameBuckets
      ensures Stored(live - Keys(due))
      ensures TakenFrames(due, live, frame) && AllFramesTaken(due, live, frame)
      ensures visited == |due|
    {
      hide HeapOrdered, Counted, TakenFrames, AllFramesTaken, Items, Keys, Located, HeapHeld, FramesHeld, ReadyHeld, AllPlaced;
      due, visited := [], 0;
      NoFrameTaken(live, frame);
      while frameBuckets != map[] && OrderedMap.Least(frameBuckets.Keys) <= frame
        invariant visited == |due| && Stored(live - Keys(due)) && TakenFrames(due, live, frame)
        decreases |frameBuckets|
      {
        var target: nat := OrderedMap.Least(frameBuckets.Keys);
        var bucket := frameBuckets[target];
        HoldsWithoutBucket(deadlineHeap, frameBuckets, ready, locations, live - Keys(due), target);
        TakeBucket(frameBuckets, locations, due, live, frame, target);
        assert |frameBuckets - {target}| < |frameBuckets| by {
          assert (frameBuckets - {target}).Keys == frameBuckets.Keys - {target};
        }
        frameBuckets := frameBuckets - {target};
        visited := visited + |bucket|;
        due := due + Items(bucket);
      }
      FramesNotDue(deadlineHeap, frameBuckets, ready, locations, due, live, frame);
    }

    /** Everything that was left ready, in order. */
    method DrainReady() returns (pairs: seq<Pair>)
      requires Valid()
      modifies this`ready
      ensures Stored(book - ReadyKeys(book))
      ensures Distinct(pairs) && Names(pairs, book) && Keys(pairs) == ReadyKeys(book)
    {
      hide Holds, HeapOrdered, Counted, Items, Keys, Distinct, Names, Indexed, Keyed;
      ItemsOfReady(deadlineHeap, frameBuckets, ready, locations, book);
      HoldsWithoutReady(deadlineHeap, frameBuckets, ready, locations, book);
      pairs := Items(ready);
      ready := map[];
    }

    /** Empties the ready map and takes every due deadline and frame: all the eligible timers. */
    method CollectEligible(now: Instant, frame: nat) returns (eligible: seq<Pair>)
      requires Valid()
      modifies this`deadlineHeap, this`deadlineTargets, this`frameBuckets, this`ready, this`locations, this`examined
      ensures Stored(book - EligibleKeys(book, now, frame))
      ensures Distinct(eligible) && Names(eligible, book) && Keys(eligible) == EligibleKeys(book, now, frame)
      ensures (book - EligibleKeys(book, now, frame)).Keys <= locations.Keys <= book.Keys
      ensures examined == old(examined) + Visits(Listing(book), now, frame)
    {
      hide Holds, HeapOrdered, Counted, Items, PairsOf, Keys, Distinct, Names, Indexed, Listing, Lists, Sorted, Keyed;
      hide TakenDeadlines, AllTaken, TakenFrames, AllFramesTaken, EligibleKeys, FreshKeys, Sequences, DeadlineAhead, Stored, FreshOf, ReadyKeys;
      eligible := DrainReady();
      ghost var rs, waiting := eligible, book - ReadyKeys(book);
      var deadlines, deadlineVisits := TakeDueDeadlines(now, waiting);
      eligible := eligible + PairsOf(deadlines);
      var frames, frameVisits := TakeDueFrames(frame, waiting - Sequences(deadlines));
      eligible := eligible + frames;
      examined := examined + deadlineVisits + frameVisits;

      CollectedFresh(book, waiting, deadlines, frames, now, frame);
      CollectedAll(book, rs, PairsOf(deadlines) + frames, now, frame);
      assert eligible == rs + (PairsOf(deadlines) + frames);
      FreshCount(book, now, frame);
      AheadIff(book, deadlines, now);
      CollectedLeaves(book, deadlines, frames, now, frame, locations.Keys);
    }

    /** Drops the eligible timers from the location and id indexes, or clears both when nothing else is left. */
    method Release(eligible: seq<Pair>, drainsEverything: bool) returns (due: seq<nat>)
      requires Distinct(eligible) && Names(eligible, book) && Indexed(idSequences, book)
      requires Stored(book - Keys(eligible))
      requires (book - Keys(eligible)).Keys <= locations.Keys <= book.Keys
      requires drainsEverything ==> Keys(eligible) == book.Keys
      modifies this`locations, this`idSequences
      ensures due == SecondsOf(eligible)
      ensures Stored(book - Keys(eligible)) && Indexed(idSequences, book - Keys(eligible))
      ensures locations.Keys == (book - Keys(eligible)).Keys
    {
      hide Holds, HeapOrdered, Counted, Indexed;
      ghost var rest := book - Keys(eligible);
      due := [];
      assert Keys(eligible[..0]) == {};
      assert book - {} == book;
      for i := 0 to |eligible|
        invariant |due| == i && forall j | 0 <= j < i :: due[j] == eligible[j].id
        invariant Stored(rest)
        invariant !drainsEverything ==> Indexed(idSequences, book - Keys(eligible[..i]))
        invariant !drainsEverything ==> rest.Keys <= locations.Keys <= book.Keys - Keys(eligible[..i])
      {
        var sequence, id := eligible[i].sequence, eligible[i].id;
        PrefixKeys(eligible, i);
        if !drainsEverything {
          HoldsForget(deadlineHeap, frameBuckets, ready, locations, rest, sequence);
          locations := locations - {sequence};
          UnlinkIdSequence(id, sequence, book - Keys(eligible[..i]));
          assert book - Keys(eligible[..i]) - {sequence} == book - Keys(eligible[..i + 1]);
        }
        due := due + [id];
      }
      assert eligible[..|eligible|] == eligible;
      if drainsEverything {
        assert rest == map[];
        HoldsNothing(deadlineHeap, frameBuckets, ready, locations, rest);
        IndexedNothing();
        locations := map[];
        idSequences := map[];
      }
    }

    method PutInOrder(eligible: seq<Pair>) returns (sorted: seq<Pair>)
      requires Distinct(eligible) && Names(eligible, book)
      ensures InSequence(sorted) && Distinct(sorted)
      ensures Names(sorted, book) && Keys(sorted) == Keys(eligible)
      ensures Keys(sorted) <= book.Keys
    {
      assert forall i | 0 <= i < |eligible| :: eligible[i].sequence in book;
      SortKeepsNames(eligible, book);
      sorted := eligible;
      if !InSequence(eligible) {
        sorted := SortBySequence(eligible);
      }
      SortedDistinct(sorted);
    }

    /** Returns and removes every eligible timer, in insertion order. */
    method Due(now: Instant, frame: nat) returns (due: seq<nat>)
      requires Valid()
      modifies this
      ensures Valid() && nextSequence == old(nextSequence)
      ensures due == Ids(EligibleOf(old(Pending()), now, frame))
      ensures Pending() == WaitingOf(old(Pending()), now, frame)
      ensures examined == old(examined) + Visits(old(Pending()), now, frame)
    {
      hide Holds, Counted, HeapOrdered, Distinct, Names, Indexed, Listing, Lists, Sorted, Keyed, EligibleKeys, Keys;
      hide EligibleOf, WaitingOf, FreshOf, DeadlineAhead, InSequence, Stored, SecondsOf, Ids, Visits;
      var pendingBefore := |locations|;
      var eligible := CollectEligible(now, frame);
      eligible := PutInOrder(eligible);
      SortedIds(eligible, book, now, frame);
      DueListing(book, now, frame);
      var drainsEverything := |eligible| == pendingBefore;
      if drainsEverything {
        DrainsAll(eligible, book, now, frame);
      }
      due := Release(eligible, drainsEverything);
      Shed(EligibleKeys(book, now, frame));
    }

    /** Queues found timers in the ready map under their own sequence. */
    method QueueReady(found: seq<Pair>, ghost live: Book, ghost all: Book)
      requires Stored(live) && Distinct(found) && Names(found, all) && Keys(found) !! live.Keys && Keyed(all)
      modifies this`ready, this`locations
      ensures Stored(live + Readied(found, all))
      ensures locations.Keys == old(locations.Keys) + Keys(found)
    {
      hide Holds, HeapOrdered, Counted, Readied, Keys, Keyed;
      ReadiedNone(live, all);
      for i := 0 to |found|
        invariant Stored(live + Readied(found[..i], all))
        invariant locations.Keys == old(locations.Keys) + Keys(found[..i])
      {
        var sequence, id := found[i].sequence, found[i].id;
        PrefixKeys(found, i);
        ReadiedNext(found, i, live, all);
        HoldsWithReady(deadlineHeap, frameBuckets, ready, locations, live + Readied(found[..i], all),
                       all[sequence].(ready := true));
        ready := ready[sequence := id];
        locations := locations[sequence := Ready];
      }
      assert found[..|found|] == found;
    }

    /** Moves every newly due deadline into the ready map. */
    method MarkDeadlines(now: Instant) returns (visited: nat, ghost due: seq<DeadlineEntry>)
      requires Valid()
      modifies this`deadlineHeap, this`deadlineTargets, this`ready, this`locations
      ensures TakenDeadlines(due, book - ReadyKeys(book), now) && AllTaken(due, book - ReadyKeys(book), now)
      ensures Stored(book - Sequences(due) + Readied(PairsOf(due), book)) && locations.Keys == book.Keys
      ensures visited == |due| + if DeadlineAhead(Listing(book), now) then 1 else 0
    {
      hide Holds, HeapOrdered, Counted, PairsOf, Keys, Distinct, Names, Indexed, Listing, Lists, Sorted, Readied;
      hide TakenDeadlines, AllTaken, Sequences, DeadlineAhead, ReadyKeys, IsDeadline;
      var deadlines;
      deadlines, visited := TakeDueDeadlines(now, book);
      due := deadlines;
      TakenWaiting(book, due, now);
      PairsTaken(book, due, now);
      PairKeys(due);
      TakenKeys(book, due, now);
      AheadIff(book, due, now);
      QueueReady(PairsOf(deadlines), book - Sequences(due), book);
    }

    /** Moves every newly due timer into the ready map. */
    method MarkEligible(now: Instant, frame: nat)
      requires Valid()
      modifies this`deadlineHeap, this`deadlineTargets, this`frameBuckets, this`ready, this`locations, this`examined
      ensures Stored(MarkBook(book, now, frame)) && locations.Keys == book.Keys
      ensures examined == old(examined) + Visits(Listing(book), now, frame)
    {
      hide Holds, HeapOrdered, Counted, PairsOf, Keys, Distinct, Names, Indexed, Listing, Lists, Sorted, Readied, MarkBook;
      hide TakenDeadlines, AllTaken, TakenFrames, AllFramesTaken, FreshKeys, Sequences, DeadlineAhead, ReadyKeys, FreshOf, Stored;
      var deadlineVisits, deadlines := MarkDeadlines(now);
      ghost var marked := book - Sequences(deadlines) + Readied(PairsOf(deadlines), book);
      var frames, frameVisits := TakeDueFrames(frame, marked);
      FramesWaiting(book, deadlines, frames, frame);
      FramesApart(book - ReadyKeys(book), deadlines, frames, frame);
      TakenBeside(marked, Keys(frames), book.Keys);
      QueueReady(frames, marked - Keys(frames), book);
      examined := examined + deadlineVisits + frameVisits;

      CollectedFresh(book, book - ReadyKeys(book), deadlines, frames, now, frame);
      FreshCount(book, now, frame);
      MarkedBook(book, deadlines, frames, now, frame);
    }

    /** Returns at most `limit` eligible timers in insertion order; the others stay queued as ready. */
    method DueLimited(now: Instant, frame: nat, limit: nat) returns (due: seq<nat>)
      requires Valid()
      modifies this
      ensures Valid() && nextSequence == old(nextSequence)
      ensures limit == 0 ==> due == [] && Pending() == old(Pending()) && examined == old(examined)
      ensures 0 < limit ==> due == Ids(TakeReady(MarkReady(old(Pending()), now, frame), limit))
      ensures 0 < limit ==> Pending() == DropReady(MarkReady(old(Pending()), now, frame), limit)
      ensures 0 < limit ==> examined == old(examined) + Visits(old(Pending()), now, frame)
    {
      hide Holds, HeapOrdered, Counted, Indexed, Listing, Lists, Sorted, MarkBook, MarkReady, TakeReady, DropReady, FreshOf, DeadlineAhead;
      if limit == 0 {
        return [];
      }
      MarkEligible(now, frame);
      MarkListing(book, now, frame);
      IndexedMarked(idSequences, book, now, frame);
      MarkKeys(book, now, frame);
      book := MarkBook(book, now, frame);
      due := PopReadyTimers(limit);
    }

    method PopReadyTimers(limit: nat) returns (due: seq<nat>)
      requires Valid()
      modifies this`ready, this`locations, this`idSequences, this`book
      ensures Valid()
      ensures due == Ids(TakeReady(old(Pending()), limit))
      ensures Pending() == DropReady(old(Pending()), limit)
    {
      hide Valid, Pending, Sorted, FirstReadyIn, TakeReady, DropReady, Omit, Ids;
      due := [];
      ghost var all, left: nat := Pending(), limit;
      while |due| < limit && ready != map[]
        invariant Valid() && |due| + left == limit
        invariant Ids(TakeReady(all, limit)) == due + Ids(TakeReady(Pending(), left))
        invariant DropReady(all, limit) == DropReady(Pending(), left)
        decreases |ready|
      {
        ghost var before, drained := Pending(), due;
        var id, first := PopFirstReady();
        PopReady(before, first, left);
        left := left - 1;
        IdsCons(first, TakeReady(Pending(), left));
        due := due + [id];
        OneMoreDrained(drained, id, Ids(TakeReady(Pending(), left)));
      }
      NoneLeft(left);
      IdsNone();
    }

    lemma {:induction false} NoneLeft(n: nat)
      requires Valid() && (n == 0 || ready == map[])
      ensures TakeReady(Pending(), n) == [] && DropReady(Pending(), n) == Pending()
    {
      if n != 0 {
        NoneReady(deadlineHeap, frameBuckets, ready, locations, book);
        NothingReady(Pending(), n);
      }
    }

    lemma {:induction false} LeastReady(sequence: nat)
      requires Valid() && sequence in ready && forall k | k in ready :: sequence <= k
      ensures sequence in book && sequence in locations && locations[sequence] == Ready && book[sequence].id == ready[sequence]
      ensures FirstReadyIn(Listing(book), book[sequence]) && Sorted(Listing(book)) && book[sequence].sequence == sequence
    {
      hide Holds, HeapOrdered, Counted, Indexed, Listing, Lists, Sorted, FirstReadyIn, Keyed;
      FirstReady(deadlineHeap, frameBuckets, ready, locations, book, sequence);
    }

    /** Takes the ready timer inserted first. */
    method PopFirstReady() returns (id: nat, ghost first: Entry)
      requires Valid() && ready != map[]
      modifies this`ready, this`locations, this`idSequences, this`book
      ensures Valid() && |ready| < |old(ready)|
      ensures Sorted(old(Pending())) && FirstReadyIn(old(Pending()), first) && first.id == id
      ensures Pending() == Omit(old(Pending()), first.sequence)
    {
      hide Stored, Indexed, Listing, Sorted, Omit, FirstReadyIn, Keyed;
      var sequence: nat := OrderedMap.Least(ready.Keys);
      id := ready[sequence];
      LeastReady(sequence);
      first := book[sequence];
      ghost var before := ready;
      RemoveReady(sequence, book);
      FewerKeys(before, ready, sequence);
      Settle(id, sequence);
    }

    /** The id index and the book follow the removal of one timer. */
    method Settle(id: nat, sequence: nat)
      requires Keyed(book) && Indexed(idSequences, book) && sequence in book && book[sequence].id == id
      requires Stored(book - {sequence}) && locations.Keys == book.Keys - {sequence}
      requires (forall s | s in book :: s < nextSequence) && nextSequence <= U64_MAX
      modifies this`idSequences, this`book
      ensures Valid() && Pending() == Omit(Listing(old(book)), sequence)
    {
      hide Stored, Indexed, Listing, Sorted, Lists, Omit, Keyed;
      OmitListing(book, sequence);
      UnlinkIdSequence(id, sequence, book);
      book := book - {sequence};
    }
  }
}
