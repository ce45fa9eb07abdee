/** The (sequence, id) pairs a drain collects before it puts them back into insertion order. */
module TimerPairs {
  import opened TimerSpec
  import opened TimerHeap
  import opened TimerListing
  import OrderedMap

  datatype Pair = Pair(sequence: nat, id: nat)

  ghost predicate Distinct(ps: seq<Pair>) {
    forall i, j | 0 <= i < j < |ps| :: ps[i].sequence != ps[j].sequence
  }

  predicate InSequence(ps: seq<Pair>) {
    forall i, j | 0 <= i < j < |ps| :: ps[i].sequence < ps[j].sequence
  }

  ghost function Keys(ps: seq<Pair>): set<nat> {
    set i | 0 <= i < |ps| :: ps[i].sequence
  }

  /** `ps` names timers of `book` by sequence and id. */
  ghost predicate Names(ps: seq<Pair>, book: Book) {
    forall i | 0 <= i < |ps| :: ps[i].sequence in book && book[ps[i].sequence].id == ps[i].id
  }

  function Lookup(m: map<nat, nat>, ks: seq<nat>): (ps: seq<Pair>)
    requires forall i | 0 <= i < |ks| :: ks[i] in m
    ensures |ps| == |ks|
    ensures forall i | 0 <= i < |ks| :: ps[i] == Pair(ks[i], m[ks[i]])
  {
    if ks == [] then [] else [Pair(ks[0], m[ks[0]])] + Lookup(m, ks[1..])
  }

  /** In-order iteration over an ordered map. */
  function Items(m: map<nat, nat>): (ps: seq<Pair>) {
    var ks := OrderedMap.SortedKeys(m.Keys);
    assert forall i | 0 <= i < |ks| :: ks[i] in ks;
    Lookup(m, ks)
  }

  lemma {:induction false} LookupKeys(m: map<nat, nat>, ks: seq<nat>)
    requires forall k: nat :: k in ks <==> k in m.Keys
    ensures forall i | 0 <= i < |ks| :: ks[i] in m
    ensures Keys(Lookup(m, ks)) == m.Keys
  {
  }

  lemma {:induction false} ItemsList(m: map<nat, nat>)
    ensures |Items(m)| == |m|
    ensures InSequence(Items(m))
    ensures Keys(Items(m)) == m.Keys
    ensures forall i | 0 <= i < |Items(m)| :: Items(m)[i].sequence in m && m[Items(m)[i].sequence] == Items(m)[i].id
  {
    LookupKeys(m, OrderedMap.SortedKeys(m.Keys));
  }

  function PairsOf(ds: seq<DeadlineEntry>): (ps: seq<Pair>)
    ensures |ps| == |ds|
    ensures forall i | 0 <= i < |ds| :: ps[i] == Pair(ds[i].sequence, ds[i].id)
  {
    if ds == [] then [] else [Pair(ds[0].sequence, ds[0].id)] + PairsOf(ds[1..])
  }

  ghost predicate After(k: int, ps: seq<Pair>) {
    forall i | 0 <= i < |ps| :: k < ps[i].sequence
  }

  lemma {:induction false} ConsInSequence(p: Pair, ps: seq<Pair>)
    requires InSequence(ps) && After(p.sequence, ps)
    ensures InSequence([p] + ps)
  {
  }

  lemma {:induction false} AfterHead(ps: seq<Pair>)
    requires InSequence(ps) && ps != []
    ensures InSequence(ps[1..]) && After(ps[0].sequence, ps[1..])
  {
  }

  function Insert(p: Pair, ps: seq<Pair>): (r: seq<Pair>) {
    if ps == [] || p.sequence < ps[0].sequence then [p] + ps else [ps[0]] + Insert(p, ps[1..])
  }

  lemma {:induction false} InsertMembers(p: Pair, ps: seq<Pair>)
    ensures multiset(Insert(p, ps)) == multiset(ps) + multiset{p} && |Insert(p, ps)| == |ps| + 1
  {
    if ps != [] && p.sequence >= ps[0].sequence {
      InsertMembers(p, ps[1..]);
      assert ps == [ps[0]] + ps[1..];
    }
  }

  lemma {:induction false} InsertAfter(k: int, p: Pair, ps: seq<Pair>)
    requires k < p.sequence && After(k, ps)
    ensures After(k, Insert(p, ps))
  {
    if ps != [] && p.sequence >= ps[0].sequence {
      InsertAfter(k, p, ps[1..]);
    }
  }

  lemma {:induction false} InsertInSequence(p: Pair, ps: seq<Pair>)
    requires InSequence(ps) && forall i | 0 <= i < |ps| :: ps[i].sequence != p.sequence
    ensures InSequence(Insert(p, ps))
  {
    if ps != [] {
      AfterHead(ps);
      if p.sequence < ps[0].sequence {
        ConsInSequence(p, ps);
      } else {
        InsertInSequence(p, ps[1..]);
        InsertAfter(ps[0].sequence, p, ps[1..]);
        ConsInSequence(ps[0], Insert(p, ps[1..]));
      }
    }
  }

  /** Sorting by sequence, for pairs whose sequences are distinct. */
  function SortBySequence(ps: seq<Pair>): (r: seq<Pair>)
    requires Distinct(ps)
    ensures InSequence(r) && |r| == |ps|
    ensures multiset(r) == multiset(ps)
  {
    hide InSequence, Insert;
    if ps == [] then NothingInSequence(); [] else
      assert ps == [ps[0]] + ps[1..];
      DistinctTail(ps);
      hide Distinct;
      var rest := SortBySequence(ps[1..]);
      DistinctUnder(ps[0].sequence, ps[1..], rest);
      InsertMembers(ps[0], rest);
      InsertInSequence(ps[0], rest);
      Insert(ps[0], rest)
  }

  lemma {:induction false} NothingInSequence()
    ensures InSequence([])
  {
  }

  lemma {:induction false} DistinctTail(ps: seq<Pair>)
    requires Distinct(ps) && ps != []
    ensures Distinct(ps[1..]) && forall i | 0 <= i < |ps[1..]| :: ps[1..][i].sequence != ps[0].sequence
  {
  }

  lemma {:induction false} DistinctUnder(k: nat, ps: seq<Pair>, qs: seq<Pair>)
    requires multiset(ps) == multiset(qs) && forall i | 0 <= i < |ps| :: ps[i].sequence != k
    ensures forall i | 0 <= i < |qs| :: qs[i].sequence != k
  {
    forall i | 0 <= i < |qs| ensures qs[i].sequence != k {
      assert qs[i] in multiset(ps);
    }
  }

  lemma {:induction false} SameKeys(ps: seq<Pair>, qs: seq<Pair>)
    requires multiset(ps) == multiset(qs)
    ensures Keys(ps) == Keys(qs)
  {
    assert forall q :: q in ps <==> q in multiset(ps);
    assert forall q :: q in qs <==> q in multiset(qs);
    KeysWithin(ps, qs);
    KeysWithin(qs, ps);
  }

  lemma {:induction false} KeysWithin(ps: seq<Pair>, qs: seq<Pair>)
    requires forall q | q in ps :: q in qs
    ensures Keys(ps) <= Keys(qs)
  {
    forall k | k in Keys(ps) ensures k in Keys(qs) {
      var i :| 0 <= i < |ps| && ps[i].sequence == k;
      assert ps[i] in qs;
      var j :| 0 <= j < |qs| && qs[j] == ps[i];
    }
  }

  lemma {:induction false} SameNames(ps: seq<Pair>, qs: seq<Pair>, book: Book)
    requires Names(ps, book) && forall q | q in qs :: q in ps
    ensures Names(qs, book)
  {
    forall i | 0 <= i < |qs| ensures qs[i].sequence in book && book[qs[i].sequence].id == qs[i].id {
      assert qs[i] in ps;
      var j :| 0 <= j < |ps| && ps[j] == qs[i];
    }
  }

  lemma {:induction false} KeysConcat(ps: seq<Pair>, qs: seq<Pair>)
    ensures Keys(ps + qs) == Keys(ps) + Keys(qs)
  {
    forall k | k in Keys(ps) + Keys(qs) ensures k in Keys(ps + qs) {
      if i :| 0 <= i < |ps| && ps[i].sequence == k {
        assert (ps + qs)[i].sequence == k;
      } else {
        var j :| 0 <= j < |qs| && qs[j].sequence == k;
        assert (ps + qs)[|ps| + j].sequence == k;
      }
    }
  }

  lemma {:induction false} DistinctConcat(ps: seq<Pair>, qs: seq<Pair>)
    requires Distinct(ps) && Distinct(qs) && Keys(ps) !! Keys(qs)
    ensures Distinct(ps + qs)
  {
    forall i, j | 0 <= i < j < |ps + qs| ensures (ps + qs)[i].sequence != (ps + qs)[j].sequence {
      assert i < |ps| <= j ==> ps[i].sequence in Keys(ps) && qs[j - |ps|].sequence in Keys(qs);
    }
  }

  lemma {:induction false} KeyCount(ps: seq<Pair>)
    requires Distinct(ps)
    ensures |Keys(ps)| == |ps|
  {
    if ps != [] {
      var init := ps[..|ps| - 1];
      KeyCount(init);
      assert ps == init + [ps[|ps| - 1]];
      KeysConcat(init, [ps[|ps| - 1]]);
      assert Keys([ps[|ps| - 1]]) == {ps[|ps| - 1].sequence};
      assert ps[|ps| - 1].sequence !in Keys(init);
    }
  }

  function SecondsOf(ps: seq<Pair>): (ids: seq<nat>)
    ensures |ids| == |ps|
    ensures forall i | 0 <= i < |ps| :: ids[i] == ps[i].id
  {
    if ps == [] then [] else [ps[0].id] + SecondsOf(ps[1..])
  }

  ghost function EntriesOf(ps: seq<Pair>, book: Book): (s: seq<Entry>)
    requires Names(ps, book)
    ensures |s| == |ps|
    ensures forall i | 0 <= i < |ps| :: s[i] == book[ps[i].sequence]
  {
    if ps == [] then [] else [book[ps[0].sequence]] + EntriesOf(ps[1..], book)
  }

  /** Pairs in sequence order that name exactly the timers listed in `s` carry the ids of `s`. */
  lemma {:induction false} IdsMatch(ps: seq<Pair>, book: Book, s: seq<Entry>)
    requires Keyed(book) && Names(ps, book) && InSequence(ps) && Sorted(s)
    requires forall e | e in s :: e.sequence in book && book[e.sequence] == e && e.sequence in Keys(ps)
    requires forall k | k in Keys(ps) :: k in book && book[k] in s
    ensures SecondsOf(ps) == Ids(s)
  {
    var es := EntriesOf(ps, book);
    forall e: Entry ensures e in es <==> e in s {
      if e in es {
        var i :| 0 <= i < |es| && es[i] == e;
        assert ps[i].sequence in Keys(ps);
      }
      if e in s {
        var i :| 0 <= i < |ps| && ps[i].sequence == e.sequence;
        assert es[i] == e;
      }
    }
    SortedUnique(es, s);
  }

  // ---- draining the frame buckets ----

  ghost predicate IsFrame(live: Book, s: nat) {
    s in live && live[s].kind.Frame? && !live[s].ready
  }

  /** `due` names frame timers of `live` that are due, each once. */
  ghost predicate TakenFrames(due: seq<Pair>, live: Book, frame: nat) {
    && (forall i | 0 <= i < |due| :: IsFrame(live, due[i].sequence) && live[due[i].sequence].id == due[i].id
          && live[due[i].sequence].kind.at <= frame)
    && Distinct(due)
  }

  ghost predicate AllFramesTaken(due: seq<Pair>, live: Book, frame: nat) {
    forall s | IsFrame(live, s) && live[s].kind.at <= frame :: s in Keys(due)
  }

  lemma {:induction false} NoFrameTaken(live: Book, frame: nat)
    ensures TakenFrames([], live, frame)
    ensures live - Keys([]) == live
  {
  }

  /** Taking the first bucket of the remaining ones. */
  lemma {:induction false} TakeBucket(buckets: Buckets, loc: Locations, due: seq<Pair>, live: Book, frame: nat, t: nat)
    requires FramesHeld(buckets, loc, live - Keys(due)) && TakenFrames(due, live, frame)
    requires t in buckets && t <= frame
    ensures TakenFrames(due + Items(buckets[t]), live, frame)
    ensures live - Keys(due + Items(buckets[t])) == live - Keys(due) - buckets[t].Keys
    ensures |Items(buckets[t])| == |buckets[t]|
  {
    hide Items, Keys;
    var more := Items(buckets[t]);
    ItemsList(buckets[t]);
    KeysConcat(due, more);
    BucketTaken(buckets, loc, live - Keys(due), more, frame, t);
    assert forall i | 0 <= i < |more| :: IsFrame(live - Keys(due), more[i].sequence) ==> IsFrame(live, more[i].sequence);
    DistinctConcat(due, more);
  }

  lemma {:induction false} BucketTaken(buckets: Buckets, loc: Locations, left: Book, more: seq<Pair>, frame: nat, t: nat)
    requires FramesHeld(buckets, loc, left) && t in buckets && t <= frame
    requires InSequence(more) && Keys(more) == buckets[t].Keys
    requires forall i | 0 <= i < |more| :: more[i].sequence in buckets[t] && buckets[t][more[i].sequence] == more[i].id
    ensures TakenFrames(more, left, frame)
    ensures Keys(more) <= left.Keys
  {
  }

  lemma {:induction false} FramesNotDue(h: Heap, buckets: Buckets, ready: ReadyMap, loc: Locations, due: seq<Pair>, live: Book, frame: nat)
    requires Holds(h, buckets, ready, loc, live - Keys(due))
    requires forall t | t in buckets :: frame < t
    ensures AllFramesTaken(due, live, frame)
  {
    var left := live - Keys(due);
    forall s | IsFrame(live, s) && s !in Keys(due) ensures frame < live[s].kind.at {
      WhereHeld(h, buckets, ready, loc, left, s);
    }
  }

  // ---- what a drain collects ----

  lemma {:induction false} PairKeys(ds: Heap)
    ensures Keys(PairsOf(ds)) == Sequences(ds)
  {
  }

  ghost function ReadyKeys(book: Book): set<nat> {
    set k | k in book && book[k].ready
  }

  ghost function FreshKeys(book: Book, now: Instant, frame: nat): set<nat> {
    set k | k in book && Fresh(book[k], now, frame)
  }

  /** Due deadlines and then due frames taken from the timers that are not ready: the fresh ones. */
  lemma {:induction false} CollectedFresh(book: Book, waiting: Book, ds: Heap, fs: seq<Pair>, now: Instant, frame: nat)
    requires waiting == book - ReadyKeys(book)
    requires TakenDeadlines(ds, waiting, now) && AllTaken(ds, waiting, now)
    requires TakenFrames(fs, waiting - Sequences(ds), frame) && AllFramesTaken(fs, waiting - Sequences(ds), frame)
    ensures Distinct(PairsOf(ds) + fs) && Names(PairsOf(ds) + fs, book)
    ensures Keys(PairsOf(ds) + fs) == FreshKeys(book, now, frame)
    ensures Sequences(ds) + Keys(fs) == FreshKeys(book, now, frame)
    ensures |ds| + |fs| == |FreshKeys(book, now, frame)|
  {
    hide PairsOf, Distinct, Names, Keys, Sequences, TakenDeadlines, AllTaken, AllFramesTaken, FreshKeys, ReadyKeys;
    var ps := PairsOf(ds);
    PairKeys(ds);
    KeysConcat(ps, fs);
    FreshKeysTaken(book, waiting, ds, fs, now, frame);
    PairsTaken(waiting, ds, now);
    FramesApart(waiting, ds, fs, frame);
    NamesConcat(ps, fs, waiting);
    NamesWithin(ps + fs, waiting, book);
    DistinctConcat(ps, fs);
    KeyCount(ps + fs);
  }

  lemma {:induction false} NamesConcat(ps: seq<Pair>, qs: seq<Pair>, book: Book)
    requires Names(ps, book) && Names(qs, book)
    ensures Names(ps + qs, book)
  {
  }

  lemma {:induction false} NamesWithin(ps: seq<Pair>, part: Book, book: Book)
    requires Names(ps, part) && forall k | k in part :: k in book && book[k] == part[k]
    ensures Names(ps, book)
  {
  }

  lemma {:induction false} PairsTaken(waiting: Book, ds: Heap, now: Instant)
    requires TakenDeadlines(ds, waiting, now)
    ensures Distinct(PairsOf(ds)) && Names(PairsOf(ds), waiting)
  {
  }

  lemma {:induction false} FramesApart(waiting: Book, ds: Heap, fs: seq<Pair>, frame: nat)
    requires TakenFrames(fs, waiting - Sequences(ds), frame)
    ensures Keys(fs) !! Sequences(ds)
    ensures Names(fs, waiting) && Distinct(fs)
  {
  }

  lemma {:induction false} FreshKeysTaken(book: Book, waiting: Book, ds: Heap, fs: seq<Pair>, now: Instant, frame: nat)
    requires waiting == book - ReadyKeys(book)
    requires TakenDeadlines(ds, waiting, now) && AllTaken(ds, waiting, now)
    requires TakenFrames(fs, waiting - Sequences(ds), frame) && AllFramesTaken(fs, waiting - Sequences(ds), frame)
    ensures Sequences(ds) + Keys(fs) == FreshKeys(book, now, frame)
  {
  }

  lemma {:induction false} CollectedAll(book: Book, rs: seq<Pair>, fs: seq<Pair>, now: Instant, frame: nat)
    requires Keys(rs) == ReadyKeys(book) && Distinct(rs) && Names(rs, book)
    requires Keys(fs) == FreshKeys(book, now, frame) && Distinct(fs) && Names(fs, book)
    ensures Distinct(rs + fs) && Names(rs + fs, book)
    ensures Keys(rs + fs) == EligibleKeys(book, now, frame)
    ensures EligibleKeys(book, now, frame) == ReadyKeys(book) + FreshKeys(book, now, frame)
  {
    KeysConcat(rs, fs);
    DistinctConcat(rs, fs);
  }

  /** What is left of the book, and of the locations, once everything eligible is collected. */
  lemma {:induction false} CollectedLeaves(book: Book, ds: Heap, fs: seq<Pair>, now: Instant, frame: nat, keys: set<nat>)
    requires Sequences(ds) + Keys(fs) == FreshKeys(book, now, frame)
    requires book.Keys - Sequences(ds) <= keys <= book.Keys
    ensures book - ReadyKeys(book) - Sequences(ds) - Keys(fs) == book - EligibleKeys(book, now, frame)
    ensures (book - EligibleKeys(book, now, frame)).Keys <= keys <= book.Keys
  {
    assert EligibleKeys(book, now, frame) == ReadyKeys(book) + FreshKeys(book, now, frame);
    hide ReadyKeys, FreshKeys, EligibleKeys, Sequences, Keys;
  }

  /** As many pairs as there are timers are all of them. */
  lemma {:induction false} DrainsAll(ps: seq<Pair>, book: Book, now: Instant, frame: nat)
    requires Distinct(ps) && Keys(ps) == EligibleKeys(book, now, frame) && |ps| == |book.Keys|
    ensures Keys(ps) == book.Keys
  {
    KeyCount(ps);
    AllKeys(Keys(ps), book);
  }

  lemma {:induction false} SortedIds(ps: seq<Pair>, book: Book, now: Instant, frame: nat)
    requires Keyed(book) && Names(ps, book) && InSequence(ps)
    requires Keys(ps) == EligibleKeys(book, now, frame)
    ensures SecondsOf(ps) == Ids(EligibleOf(Listing(book), now, frame))
  {
    EligibleSorted(Listing(book), now, frame);
    EligibleMembers(Listing(book), now, frame);
    IdsMatch(ps, book, EligibleOf(Listing(book), now, frame));
  }

  lemma {:induction false} SortKeepsNames(ps: seq<Pair>, book: Book)
    requires Distinct(ps) && Names(ps, book)
    ensures Names(SortBySequence(ps), book) && Keys(SortBySequence(ps)) == Keys(ps)
  {
    var qs := SortBySequence(ps);
    SameKeys(ps, qs);
    forall q | q in qs ensures q in ps {
      assert q in multiset(qs);
    }
    SameNames(ps, qs, book);
  }

  ghost function FreshBook(book: Book, now: Instant, frame: nat): Book {
    map k | k in book && Fresh(book[k], now, frame) :: book[k]
  }

  lemma {:induction false} FreshSorted(s: seq<Entry>, now: Instant, frame: nat)
    requires Sorted(s)
    ensures Sorted(FreshOf(s, now, frame))
  {
    if s != [] {
      TailSorted(s);
      FreshSorted(s[1..], now, frame);
      FreshMembers(s[1..], now, frame);
      ConsSorted(s, FreshOf(s[1..], now, frame));
    }
  }

  lemma {:induction false} FreshLists(book: Book, s: seq<Entry>, now: Instant, frame: nat)
    requires Lists(s, book)
    ensures Lists(FreshOf(s, now, frame), FreshBook(book, now, frame))
  {
    FreshMembers(s, now, frame);
  }

  lemma {:induction false} FreshBookKeys(book: Book, now: Instant, frame: nat)
    requires Keyed(book)
    ensures Keyed(FreshBook(book, now, frame)) && FreshBook(book, now, frame).Keys == FreshKeys(book, now, frame)
  {
  }

  lemma {:induction false} FreshCount(book: Book, now: Instant, frame: nat)
    requires Keyed(book)
    ensures |FreshOf(Listing(book), now, frame)| == |FreshKeys(book, now, frame)|
  {
    hide Lists, Sorted, FreshOf, Listing, FreshBook, FreshKeys, Keyed;
    FreshSorted(Listing(book), now, frame);
    FreshLists(book, Listing(book), now, frame);
    FreshBookKeys(book, now, frame);
    ListingUnique(FreshBook(book, now, frame), FreshOf(Listing(book), now, frame));
    assert |FreshBook(book, now, frame)| == |FreshBook(book, now, frame).Keys|;
  }

  /** Entry by entry: a deadline that was not taken is one ahead. */
  lemma {:induction false} AheadOne(book: Book, ds: Heap, now: Instant, k: nat)
    requires Keyed(book)
    requires TakenDeadlines(ds, book - ReadyKeys(book), now) && AllTaken(ds, book - ReadyKeys(book), now)
    ensures IsDeadline(book - ReadyKeys(book), k) && k !in Sequences(ds)
            <==> k in book && !book[k].ready && book[k].kind.Deadline? && now < book[k].kind.target
  {
  }

  lemma {:induction false} AheadIff(book: Book, ds: Heap, now: Instant)
    requires Keyed(book)
    requires TakenDeadlines(ds, book - ReadyKeys(book), now) && AllTaken(ds, book - ReadyKeys(book), now)
    ensures DeadlineAhead(Listing(book), now) <==>
            !forall s | IsDeadline(book - ReadyKeys(book), s) :: s in Sequences(ds)
  {
    hide TakenDeadlines, AllTaken, IsDeadline, Sequences, ReadyKeys, Listing, Sorted;
    var s := Listing(book);
    if DeadlineAhead(s, now) {
      var i :| 0 <= i < |s| && !s[i].ready && s[i].kind.Deadline? && now < s[i].kind.target;
      assert s[i] in s;
      AheadOne(book, ds, now, s[i].sequence);
    }
    if k :| IsDeadline(book - ReadyKeys(book), k) && k !in Sequences(ds) {
      AheadOne(book, ds, now, k);
      assert book[k] in s;
      var i :| 0 <= i < |s| && s[i] == book[k];
    }
  }

  lemma {:induction false} ItemsNamed(m: map<nat, nat>, book: Book)
    requires forall s | s in m :: s in book && book[s].id == m[s]
    ensures Distinct(Items(m)) && Names(Items(m), book) && Keys(Items(m)) == m.Keys
  {
    ItemsList(m);
    hide Items;
    SortedDistinct(Items(m));
  }

  lemma {:induction false} ReadyKeysAre(ready: ReadyMap, book: Book)
    requires forall s | s in book :: book[s].ready <==> s in ready
    requires forall s | s in ready :: s in book
    ensures ReadyKeys(book) == ready.Keys
  {
  }

  lemma {:induction false} ItemsOfReady(h: Heap, buckets: Buckets, ready: ReadyMap, loc: Locations, book: Book)
    requires Holds(h, buckets, ready, loc, book)
    ensures Keys(Items(ready)) == ReadyKeys(book)
    ensures ReadyKeys(book) == ready.Keys
    ensures Distinct(Items(ready)) && Names(Items(ready), book)
  {
    hide Holds, Items, Names, Distinct, Keys, ReadyKeys;
    ReadyIff(h, buckets, ready, loc, book);
    ReadyKeysAre(ready, book);
    ItemsNamed(ready, book);
  }

  lemma {:induction false} PrefixKeys(ps: seq<Pair>, i: nat)
    requires Distinct(ps) && i < |ps|
    ensures Keys(ps[..i + 1]) == Keys(ps[..i]) + {ps[i].sequence}
    ensures ps[i].sequence !in Keys(ps[..i]) && ps[i].sequence in Keys(ps)
  {
  }

  lemma {:induction false} SortedDistinct(ps: seq<Pair>)
    requires InSequence(ps)
    ensures Distinct(ps)
  {
  }

  lemma {:induction false} AllKeys(ks: set<nat>, book: Book)
    requires ks <= book.Keys
    ensures |ks| == |book| ==> ks == book.Keys
  {
    assert |book.Keys - ks| == |book.Keys| - |ks|;
    if |ks| == |book| {
      assert book.Keys - ks == {};
    }
  }

  lemma {:induction false} IndexedNothing()
    ensures Indexed(map[], map[])
  {
  }

  // ---- a bounded drain ----

  /** The timers named by `found`, now ready. */
  ghost function Readied(found: seq<Pair>, all: Book): (r: Book)
    ensures r.Keys == Keys(found) * all.Keys
  {
    map k | k in Keys(found) * all.Keys :: all[k].(ready := true)
  }

  lemma {:induction false} ReadiedNone(live: Book, all: Book)
    ensures Keys([]) == {} && live + Readied([], all) == live
  {
  }

  lemma {:induction false} ReadiedNext(found: seq<Pair>, i: nat, live: Book, all: Book)
    requires i < |found| && Distinct(found) && Names(found, all) && Keys(found) !! live.Keys && Keyed(all)
    ensures found[i].sequence in all && found[i].sequence !in live + Readied(found[..i], all)
    ensures var e := all[found[i].sequence].(ready := true);
            && e.sequence == found[i].sequence && e.id == found[i].id
            && live + Readied(found[..i + 1], all) == (live + Readied(found[..i], all))[found[i].sequence := e]
  {
    PrefixKeys(found, i);
    hide Keys;
    var e := all[found[i].sequence].(ready := true);
    assert live + Readied(found[..i + 1], all) == (live + Readied(found[..i], all))[found[i].sequence := e];
  }

  lemma {:induction false} TakenKeys(book: Book, ds: Heap, now: Instant)
    requires TakenDeadlines(ds, book, now)
    ensures Sequences(ds) <= book.Keys
  {
  }

  lemma {:induction false} IdsNone()
    ensures Ids([]) == []
  {
  }

  lemma {:induction false} IdsCons(e: Entry, rest: seq<Entry>)
    ensures Ids([e] + rest) == [e.id] + Ids(rest)
  {
  }

  lemma {:induction false} TakenWaiting(book: Book, ds: Heap, now: Instant)
    requires TakenDeadlines(ds, book, now) && AllTaken(ds, book, now)
    ensures TakenDeadlines(ds, book - ReadyKeys(book), now) && AllTaken(ds, book - ReadyKeys(book), now)
    ensures (forall s | IsDeadline(book, s) :: s in Sequences(ds)) <==>
            (forall s | IsDeadline(book - ReadyKeys(book), s) :: s in Sequences(ds))
  {
  }

  lemma {:induction false} FramesWaiting(book: Book, ds: Heap, fs: seq<Pair>, frame: nat)
    requires TakenFrames(fs, book - Sequences(ds) + Readied(PairsOf(ds), book), frame)
    requires AllFramesTaken(fs, book - Sequences(ds) + Readied(PairsOf(ds), book), frame)
    ensures TakenFrames(fs, book - ReadyKeys(book) - Sequences(ds), frame)
    ensures AllFramesTaken(fs, book - ReadyKeys(book) - Sequences(ds), frame)
    ensures Distinct(fs) && Names(fs, book) && Keys(fs) <= book.Keys
  {
  }

  /** What was taken out is apart from what is left, and comes back under keys of the book. */
  lemma {:induction false} TakenBeside(marked: Book, gone: set<nat>, keys: set<nat>)
    requires gone <= keys
    ensures gone !! (marked - gone).Keys && keys + gone == keys
  {
  }

  /** Queueing every fresh timer as ready marks the book. */
  lemma {:induction false} MarkedBook(book: Book, ds: Heap, fs: seq<Pair>, now: Instant, frame: nat)
    requires Sequences(ds) + Keys(fs) == FreshKeys(book, now, frame) && Keys(fs) !! Sequences(ds)
    ensures book - Sequences(ds) + Readied(PairsOf(ds), book) - Keys(fs) + Readied(fs, book) == MarkBook(book, now, frame)
  {
  }

  lemma {:induction false} IndexedMarked(ids: map<nat, IdSequences>, book: Book, now: Instant, frame: nat)
    requires Indexed(ids, book)
    ensures Indexed(ids, MarkBook(book, now, frame))
  {
  }

  lemma {:induction false} MarkKeys(book: Book, now: Instant, frame: nat)
    ensures MarkBook(book, now, frame).Keys == book.Keys
  {
  }

  lemma {:induction false} OneMoreDrained(before: seq<nat>, id: nat, rest: seq<nat>)
    ensures before + ([id] + rest) == (before + [id]) + rest
  {
  }

  lemma {:induction false} FewerKeys(before: ReadyMap, after: ReadyMap, s: nat)
    requires s in before && after.Keys == before.Keys - {s}
    ensures |after| < |before|
  {
    assert |after.Keys| == |after| && |before.Keys| == |before|;
  }

  lemma {:induction false} FirstReady(h: Heap, buckets: Buckets, ready: ReadyMap, loc: Locations, book: Book, s: nat)
    requires Holds(h, buckets, ready, loc, book) && Keyed(book)
    requires s in ready && forall k | k in ready :: s <= k
    ensures s in book && loc.Keys >= {s} && loc[s] == Ready && book[s].id == ready[s]
    ensures FirstReadyIn(Listing(book), book[s]) && Sorted(Listing(book)) && book[s].sequence == s
  {
    ReadyIff(h, buckets, ready, loc, book);
    assert ReadyHeld(ready, loc, book);
  }

  lemma {:induction false} NoneReady(h: Heap, buckets: Buckets, ready: ReadyMap, loc: Locations, book: Book)
    requires Holds(h, buckets, ready, loc, book) && Keyed(book) && ready == map[]
    ensures forall e | e in Listing(book) :: !e.ready
  {
    ReadyIff(h, buckets, ready, loc, book);
  }
}
