/** A book of timers listed in insertion order, and how each queue operation changes the list. */
module TimerListing {
  import opened TimerSpec
  import opened TimerHeap
  import OrderedMap

  ghost predicate Sorted(s: seq<Entry>) {
    forall i, j | 0 <= i < j < |s| :: s[i].sequence < s[j].sequence
  }

  ghost predicate Keyed(book: Book) {
    forall k | k in book :: book[k].sequence == k
  }

  /** `s` has exactly the timers of `book`. */
  ghost predicate Lists(s: seq<Entry>, book: Book) {
    forall e: Entry {:trigger e in s} :: e in s <==> e.sequence in book && book[e.sequence] == e
  }

  ghost function Look(book: Book, ks: seq<nat>): (s: seq<Entry>)
    requires forall k | k in ks :: k in book
    ensures |s| == |ks|
    ensures forall i | 0 <= i < |ks| :: s[i] == book[ks[i]]
  {
    if ks == [] then [] else [book[ks[0]]] + Look(book, ks[1..])
  }

  lemma {:induction false} LookLists(book: Book, ks: seq<nat>)
    requires Keyed(book) && OrderedMap.Increasing(ks) && forall k: nat :: k in ks <==> k in book.Keys
    ensures Lists(Look(book, ks), book) && Sorted(Look(book, ks))
  {
  }

  /** The timers of `book` in insertion order. */
  ghost function Listing(book: Book): (s: seq<Entry>)
    requires Keyed(book)
    ensures |s| == |book|
    ensures Sorted(s)
    ensures Lists(s, book)
  {
    var ks := OrderedMap.SortedKeys(book.Keys);
    assert |ks| == |book|;
    LookLists(book, ks);
    hide Lists, Sorted;
    Look(book, ks)
  }

  lemma {:induction false} SortedUnique(a: seq<Entry>, b: seq<Entry>)
    requires Sorted(a) && Sorted(b)
    requires forall e :: e in a <==> e in b
    ensures a == b
  {
    HeadIn(a);
    HeadIn(b);
    if a != [] {
      assert a[0] in a && a[0] in b;
      var j :| 0 <= j < |b| && b[j] == a[0];
      assert b[0] in b && b[0] in a;
      var i :| 0 <= i < |a| && a[i] == b[0];
      assert i == 0 && j == 0;
      Tail(a);
      Tail(b);
      SortedUnique(a[1..], b[1..]);
    }
  }

  lemma {:induction false} HeadIn(a: seq<Entry>)
    ensures a == [] || a[0] in a
  {
  }

  lemma {:induction false} Tail(a: seq<Entry>)
    requires Sorted(a) && a != []
    ensures Sorted(a[1..])
    ensures forall e :: e in a[1..] <==> e in a && e != a[0]
  {
  }

  lemma {:induction false} TailSorted(a: seq<Entry>)
    requires Sorted(a) && a != []
    ensures Sorted(a[1..])
  {
  }

  lemma {:induction false} ListingUnique(book: Book, s: seq<Entry>)
    requires Keyed(book) && Sorted(s)
    requires Lists(s, book)
    ensures s == Listing(book)
  {
    SortedUnique(s, Listing(book));
  }

  // ---- what the list operations keep ----

  lemma {:induction false} EligibleMembers(s: seq<Entry>, now: Instant, frame: nat)
    ensures forall e :: e in EligibleOf(s, now, frame) <==> e in s && Eligible(e, now, frame)
  {
    if s != [] {
      EligibleMembers(s[1..], now, frame);
      assert s == [s[0]] + s[1..];
    }
  }

  lemma {:induction false} WaitingMembers(s: seq<Entry>, now: Instant, frame: nat)
    ensures forall e :: e in WaitingOf(s, now, frame) <==> e in s && !Eligible(e, now, frame)
  {
    if s != [] {
      WaitingMembers(s[1..], now, frame);
      assert s == [s[0]] + s[1..];
    }
  }

  lemma {:induction false} WithoutMembers(s: seq<Entry>, id: nat)
    ensures forall e :: e in Without(s, id) <==> e in s && e.id != id
  {
    if s != [] {
      WithoutMembers(s[1..], id);
      assert s == [s[0]] + s[1..];
    }
  }

  lemma {:induction false} FreshMembers(s: seq<Entry>, now: Instant, frame: nat)
    ensures forall e :: e in FreshOf(s, now, frame) <==> e in s && Fresh(e, now, frame)
  {
    if s != [] {
      FreshMembers(s[1..], now, frame);
      assert s == [s[0]] + s[1..];
    }
  }

  lemma {:induction false} OmitMembers(s: seq<Entry>, sequence: nat)
    ensures forall e :: e in Omit(s, sequence) <==> e in s && e.sequence != sequence
  {
    if s != [] {
      OmitMembers(s[1..], sequence);
      assert s == [s[0]] + s[1..];
    }
  }

  /** What is left of the tail may be put behind the head. */
  lemma {:induction false} ConsSorted(s: seq<Entry>, r: seq<Entry>)
    requires Sorted(s) && s != [] && Sorted(r)
    requires forall e | e in r :: e in s[1..]
    ensures Sorted([s[0]] + r)
  {
    forall j | 0 <= j < |r| ensures s[0].sequence < r[j].sequence {
      assert r[j] in s[1..];
      var i :| 0 <= i < |s[1..]| && s[1..][i] == r[j];
      assert s[i + 1] == r[j];
    }
  }

  lemma {:induction false} EligibleSorted(s: seq<Entry>, now: Instant, frame: nat)
    requires Sorted(s)
    ensures Sorted(EligibleOf(s, now, frame))
  {
    if s != [] {
      TailSorted(s);
      EligibleSorted(s[1..], now, frame);
      EligibleMembers(s[1..], now, frame);
      ConsSorted(s, EligibleOf(s[1..], now, frame));
    }
  }

  lemma {:induction false} WaitingSorted(s: seq<Entry>, now: Instant, frame: nat)
    requires Sorted(s)
    ensures Sorted(WaitingOf(s, now, frame))
  {
    if s != [] {
      TailSorted(s);
      WaitingSorted(s[1..], now, frame);
      WaitingMembers(s[1..], now, frame);
      ConsSorted(s, WaitingOf(s[1..], now, frame));
    }
  }

  lemma {:induction false} WithoutSorted(s: seq<Entry>, id: nat)
    requires Sorted(s)
    ensures Sorted(Without(s, id))
  {
    if s != [] {
      TailSorted(s);
      WithoutSorted(s[1..], id);
      WithoutMembers(s[1..], id);
      ConsSorted(s, Without(s[1..], id));
    }
  }

  lemma {:induction false} PushLists(book: Book, s: seq<Entry>, e: Entry)
    requires Lists(s, book) && Sorted(s) && forall k | k in book :: k < e.sequence
    ensures Lists(s + [e], book[e.sequence := e]) && Sorted(s + [e])
  {
    forall i | 0 <= i < |s| ensures s[i].sequence < e.sequence {
      assert s[i] in s;
    }
    var book' := book[e.sequence := e];
    forall x: Entry ensures x in s + [e] <==> x.sequence in book' && book'[x.sequence] == x {
      assert x in s + [e] <==> x in s || x == e;
    }
  }

  lemma {:induction false} PushListing(book: Book, e: Entry)
    requires Keyed(book) && forall k | k in book :: k < e.sequence
    ensures Keyed(book[e.sequence := e])
    ensures Listing(book[e.sequence := e]) == Listing(book) + [e]
  {
    hide Listing, Lists, Sorted;
    PushLists(book, Listing(book), e);
    ListingUnique(book[e.sequence := e], Listing(book) + [e]);
  }

  lemma {:induction false} WithoutListing(book: Book, id: nat)
    requires Keyed(book)
    ensures Keyed(book - WithId(book, id))
    ensures Listing(book - WithId(book, id)) == Without(Listing(book), id)
  {
    WithoutSorted(Listing(book), id);
    WithoutMembers(Listing(book), id);
    ListingUnique(book - WithId(book, id), Without(Listing(book), id));
  }

  lemma {:induction false} WithoutShrinks(book: Book, id: nat)
    requires Keyed(book)
    ensures WithId(book, id) == {} <==> |Without(Listing(book), id)| == |Listing(book)|
  {
    WithoutListing(book, id);
    var rest := book - WithId(book, id);
    assert rest.Keys == book.Keys - WithId(book, id);
    assert |rest.Keys| == |book.Keys| - |WithId(book, id)|;
  }

  ghost function EligibleKeys(book: Book, now: Instant, frame: nat): set<nat> {
    set k | k in book && Eligible(book[k], now, frame)
  }

  lemma {:induction false} DueListing(book: Book, now: Instant, frame: nat)
    requires Keyed(book)
    ensures Keyed(book - EligibleKeys(book, now, frame))
    ensures Listing(book - EligibleKeys(book, now, frame)) == WaitingOf(Listing(book), now, frame)
    ensures Sorted(EligibleOf(Listing(book), now, frame))
    ensures |EligibleOf(Listing(book), now, frame)| == |EligibleKeys(book, now, frame)|
  {
    WaitingSorted(Listing(book), now, frame);
    WaitingMembers(Listing(book), now, frame);
    EligibleSorted(Listing(book), now, frame);
    var gone := EligibleKeys(book, now, frame);
    ListingUnique(book - gone, WaitingOf(Listing(book), now, frame));
    assert (book - gone).Keys == book.Keys - gone;
    assert |book.Keys - gone| == |book.Keys| - |gone|;
  }

  ghost function MarkBook(book: Book, now: Instant, frame: nat): Book {
    map k | k in book :: Marked(book[k], now, frame)
  }

  lemma {:induction false} MarkLists(book: Book, s: seq<Entry>, now: Instant, frame: nat)
    requires Keyed(book) && Lists(s, book)
    ensures Lists(MarkReady(s, now, frame), MarkBook(book, now, frame))
  {
    var r := MarkReady(s, now, frame);
    var marked := MarkBook(book, now, frame);
    forall e: Entry ensures e in r <==> e.sequence in marked && marked[e.sequence] == e {
      if e in r {
        var i :| 0 <= i < |r| && r[i] == e;
        assert s[i] in s;
      }
      if e.sequence in marked && marked[e.sequence] == e {
        assert book[e.sequence] in s;
        var i :| 0 <= i < |s| && s[i] == book[e.sequence];
        assert r[i] == e;
      }
    }
  }

  lemma {:induction false} MarkSorted(s: seq<Entry>, now: Instant, frame: nat)
    requires Sorted(s)
    ensures Sorted(MarkReady(s, now, frame))
  {
  }

  lemma {:induction false} MarkKeyed(book: Book, now: Instant, frame: nat)
    requires Keyed(book)
    ensures Keyed(MarkBook(book, now, frame))
  {
  }

  lemma {:induction false} MarkListing(book: Book, now: Instant, frame: nat)
    requires Keyed(book)
    ensures Keyed(MarkBook(book, now, frame))
    ensures Listing(MarkBook(book, now, frame)) == MarkReady(Listing(book), now, frame)
  {
    hide Listing, Lists, Sorted, MarkReady, MarkBook, Keyed;
    MarkKeyed(book, now, frame);
    MarkLists(book, Listing(book), now, frame);
    MarkSorted(Listing(book), now, frame);
    ListingUnique(MarkBook(book, now, frame), MarkReady(Listing(book), now, frame));
  }

  // ---- popping the first ready entry ----

  lemma {:induction false} NothingReady(s: seq<Entry>, n: nat)
    requires forall e | e in s :: !e.ready
    ensures TakeReady(s, n) == [] && DropReady(s, n) == s
  {
    if s != [] {
      assert s[0] in s;
      NothingReady(s[1..], n);
    }
  }

  function Omit(s: seq<Entry>, sequence: nat): (r: seq<Entry>) {
    if s == [] then [] else (if s[0].sequence == sequence then [] else [s[0]]) + Omit(s[1..], sequence)
  }

  lemma {:induction false} OmitAbsent(s: seq<Entry>, sequence: nat)
    requires forall e | e in s :: e.sequence != sequence
    ensures Omit(s, sequence) == s
  {
    if s != [] {
      assert s[0] in s;
      OmitAbsent(s[1..], sequence);
    }
  }

  lemma {:induction false} OmitSorted(s: seq<Entry>, sequence: nat)
    requires Sorted(s)
    ensures Sorted(Omit(s, sequence))
  {
    if s != [] {
      TailSorted(s);
      OmitSorted(s[1..], sequence);
      OmitMembers(s[1..], sequence);
      ConsSorted(s, Omit(s[1..], sequence));
    }
  }

  lemma {:induction false} OmitListing(book: Book, sequence: nat)
    requires Keyed(book)
    ensures Keyed(book - {sequence})
    ensures Listing(book - {sequence}) == Omit(Listing(book), sequence)
  {
    OmitSorted(Listing(book), sequence);
    OmitMembers(Listing(book), sequence);
    var rest := book - {sequence};
    assert forall k :: k in rest <==> k in book && k != sequence;
    assert Lists(Omit(Listing(book), sequence), rest);
    ListingUnique(book - {sequence}, Omit(Listing(book), sequence));
  }

  ghost predicate FirstReadyIn(s: seq<Entry>, first: Entry) {
    first in s && first.ready && forall e | e in s && e.ready :: first.sequence <= e.sequence
  }

  lemma {:induction false} PopReady(s: seq<Entry>, first: Entry, n: nat)
    requires Sorted(s) && FirstReadyIn(s, first) && 0 < n
    ensures TakeReady(s, n) == [first] + TakeReady(Omit(s, first.sequence), n - 1)
    ensures DropReady(s, n) == DropReady(Omit(s, first.sequence), n - 1)
  {
    hide Omit, TakeReady, DropReady, Sorted, FirstReadyIn;
    FirstReadyHead(s, first);
    HeadTaken(s, n);
    if s[0].ready {
      OmitAbsent(s[1..], first.sequence);
      OmitHead(s, first.sequence);
    } else {
      PopReady(s[1..], first, n);
      OmitHead(s, first.sequence);
      SkipWaiting(s[0], Omit(s[1..], first.sequence), n - 1);
    }
  }

  /** The first ready timer is the head, or it is the first ready one of the tail. */
  lemma {:induction false} FirstReadyHead(s: seq<Entry>, first: Entry)
    requires Sorted(s) && FirstReadyIn(s, first)
    ensures s != [] && Sorted(s[1..])
    ensures s[0].ready ==> s[0] == first && forall e | e in s[1..] :: e.sequence != first.sequence
    ensures !s[0].ready ==> s[0].sequence != first.sequence && FirstReadyIn(s[1..], first)
  {
    var i :| 0 <= i < |s| && s[i] == first;
    assert s[0] in s;
    Tail(s);
  }

  lemma {:induction false} HeadTaken(s: seq<Entry>, n: nat)
    requires s != [] && 0 < n
    ensures TakeReady(s, n) == if s[0].ready then [s[0]] + TakeReady(s[1..], n - 1) else TakeReady(s[1..], n)
    ensures DropReady(s, n) == if s[0].ready then DropReady(s[1..], n - 1) else [s[0]] + DropReady(s[1..], n)
  {
  }

  lemma {:induction false} OmitHead(s: seq<Entry>, sequence: nat)
    requires s != []
    ensures Omit(s, sequence) == if s[0].sequence == sequence then Omit(s[1..], sequence) else [s[0]] + Omit(s[1..], sequence)
  {
  }

  lemma {:induction false} SkipWaiting(e: Entry, rest: seq<Entry>, n: nat)
    requires !e.ready
    ensures TakeReady([e] + rest, n) == TakeReady(rest, n)
    ensures DropReady([e] + rest, n) == [e] + DropReady(rest, n)
  {
  }
}
