/** Two-level quotas: the gauges of a budget against the list of the leases it has handed out. */
module Ledger {
  datatype Owner = Host | Plugin(id: string, generation: nat)

  datatype AdmissionError = QueueFull | PayloadTooLarge | Cancelled

  datatype Result<T> = Ok(value: T) | Err(error: AdmissionError)

  datatype Gauge = Gauge(items: nat, bytes: nat)

  /** The global item and byte limits, then the per-owner ones. */
  datatype Limits = Limits(items: nat, bytes: nat, ownerItems: nat, ownerBytes: nat)

  /** A lease as it was granted; `None` once it is dropped. */
  datatype Hold = None | Held(owner: Owner, items: nat, bytes: nat)

  type Book = seq<Hold>

  const ZERO := Gauge(0, 0)

  ghost function Items(book: Book): nat {
    if book == [] then 0 else Items(book[..|book| - 1]) + if book[|book| - 1].Held? then book[|book| - 1].items else 0
  }

  ghost function Bytes(book: Book): nat {
    if book == [] then 0 else Bytes(book[..|book| - 1]) + if book[|book| - 1].Held? then book[|book| - 1].bytes else 0
  }

  /** The leases of one owner, the others blanked out. */
  ghost function Of(book: Book, owner: Owner): (r: Book)
    ensures |r| == |book|
    ensures forall i | 0 <= i < |book| :: r[i] == if book[i].Held? && book[i].owner == owner then book[i] else None
  {
    seq(|book|, i requires 0 <= i < |book| => if book[i].Held? && book[i].owner == owner then book[i] else None)
  }

  ghost function Sums(book: Book): Gauge {
    Gauge(Items(book), Bytes(book))
  }

  ghost function SumsOf(book: Book, owner: Owner): Gauge {
    Sums(Of(book, owner))
  }

  ghost function Shown(owners: map<Owner, Gauge>, owner: Owner): Gauge {
    if owner in owners then owners[owner] else ZERO
  }

  predicate Within(g: Gauge, items: nat, bytes: nat) {
    g.items <= items && g.bytes <= bytes
  }

  ghost predicate HasLease(book: Book, owner: Owner) {
    exists i :: 0 <= i < |book| && book[i].Held? && book[i].owner == owner
  }

  /** The gauges are the sums over live leases and within the limits, globally and for each owner; an owner without
      an entry has nothing, and one with an entry has a live lease. */
  ghost predicate Balanced(limits: Limits, total: Gauge, owners: map<Owner, Gauge>, book: Book) {
    && total == Sums(book) && Within(total, limits.items, limits.bytes)
    && (forall owner :: Shown(owners, owner) == SumsOf(book, owner) && Within(SumsOf(book, owner), limits.ownerItems, limits.ownerBytes))
    && (forall owner | owner in owners :: HasLease(book, owner))
  }

  /** Whether a request fits: the whole answer of admission. */
  predicate Fits(limits: Limits, total: Gauge, own: Gauge, items: nat, bytes: nat) {
    && total.items + items <= limits.items && total.bytes + bytes <= limits.bytes
    && own.items + items <= limits.ownerItems && own.bytes + bytes <= limits.ownerBytes
  }

  /** Whether it would fit an empty budget. */
  predicate Possible(limits: Limits, items: nat, bytes: nat) {
    Fits(limits, ZERO, ZERO, items, bytes)
  }

  lemma {:induction false} FittingIsPossible(limits: Limits, total: Gauge, own: Gauge, items: nat, bytes: nat)
    ensures Fits(limits, total, own, items, bytes) ==> Possible(limits, items, bytes)
  {
  }

  /** Room by adding up the live leases: all of them against the limits, and the owner's own against the owner's. */
  ghost predicate WithRoom(limits: Limits, book: Book, owner: Owner, items: nat, bytes: nat) {
    && Items(book) + items <= limits.items && Bytes(book) + bytes <= limits.bytes
    && Items(Of(book, owner)) + items <= limits.ownerItems && Bytes(Of(book, owner)) + bytes <= limits.ownerBytes
  }

  lemma {:induction false} RoomExactly(limits: Limits, total: Gauge, owners: map<Owner, Gauge>, book: Book, owner: Owner, items: nat, bytes: nat)
    requires Balanced(limits, total, owners, book)
    ensures Fits(limits, total, Shown(owners, owner), items, bytes) <==> WithRoom(limits, book, owner, items, bytes)
  {
    assert Shown(owners, owner) == SumsOf(book, owner);
  }

  /** An owner without a live lease needs only room for all and a request within its own limits, whatever others hold. */
  lemma {:induction false} NewOwner(limits: Limits, book: Book, owner: Owner, items: nat, bytes: nat)
    requires !HasLease(book, owner)
    ensures WithRoom(limits, book, owner, items, bytes) <==>
            && Items(book) + items <= limits.items && Bytes(book) + bytes <= limits.bytes
            && items <= limits.ownerItems && bytes <= limits.ownerBytes
  {
    NothingOf(book, owner);
  }

  // ---- sums ----

  lemma {:induction false} SumsAppend(book: Book, h: Hold)
    ensures Items(book + [h]) == Items(book) + if h.Held? then h.items else 0
    ensures Bytes(book + [h]) == Bytes(book) + if h.Held? then h.bytes else 0
  {
  }

  lemma {:induction false} SumsUpdate(book: Book, i: nat, h: Hold)
    requires i < |book|
    ensures Items(book[i := h]) + (if book[i].Held? then book[i].items else 0) == Items(book) + if h.Held? then h.items else 0
    ensures Bytes(book[i := h]) + (if book[i].Held? then book[i].bytes else 0) == Bytes(book) + if h.Held? then h.bytes else 0
  {
    var n := |book| - 1;
    if i == n {
      assert book[i := h][..n] == book[..n];
    } else {
      SumsUpdate(book[..n], i, h);
      assert book[i := h][..n] == book[..n][i := h];
    }
  }

  /** A live lease is part of the sums. */
  lemma {:induction false} PartOfSums(book: Book, i: nat)
    requires i < |book| && book[i].Held?
    ensures book[i].items <= Items(book) && book[i].bytes <= Bytes(book)
  {
    SumsUpdate(book, i, None);
  }

  lemma {:induction false} OfAppend(book: Book, h: Hold, owner: Owner)
    ensures Of(book + [h], owner) == Of(book, owner) + [if h.Held? && h.owner == owner then h else None]
  {
  }

  lemma {:induction false} OfUpdate(book: Book, i: nat, h: Hold, owner: Owner)
    requires i < |book|
    ensures Of(book[i := h], owner) == Of(book, owner)[i := if h.Held? && h.owner == owner then h else None]
  {
  }

  lemma {:induction false} NothingOf(book: Book, owner: Owner)
    requires !HasLease(book, owner)
    ensures SumsOf(book, owner) == ZERO
  {
    Blank(Of(book, owner));
  }

  lemma {:induction false} Blank(book: Book)
    requires forall i | 0 <= i < |book| :: book[i] == None
    ensures Sums(book) == ZERO
  {
    if book != [] {
      Blank(book[..|book| - 1]);
    }
  }

  // ---- the steps ----

  ghost function Add(g: Gauge, items: nat, bytes: nat): Gauge {
    Gauge(g.items + items, g.bytes + bytes)
  }

  lemma {:induction false} Granted(limits: Limits, total: Gauge, owners: map<Owner, Gauge>, book: Book, owner: Owner, items: nat, bytes: nat)
    requires Balanced(limits, total, owners, book) && Fits(limits, total, Shown(owners, owner), items, bytes)
    ensures Balanced(limits, Add(total, items, bytes), owners[owner := Add(Shown(owners, owner), items, bytes)], book + [Held(owner, items, bytes)])
  {
    var h := Held(owner, items, bytes);
    var book', owners' := book + [h], owners[owner := Add(Shown(owners, owner), items, bytes)];
    SumsAppend(book, h);
    forall o ensures SumsOf(book', o) == if o == owner then Add(SumsOf(book, o), items, bytes) else SumsOf(book, o) {
      OfAppend(book, h, o);
      SumsAppend(Of(book, o), if o == owner then h else None);
    }
    forall o ensures Shown(owners', o) == SumsOf(book', o) && Within(SumsOf(book', o), limits.ownerItems, limits.ownerBytes) {
      assert Shown(owners, o) == SumsOf(book, o);
    }
    forall o | o in owners' ensures HasLease(book', o) {
      if o == owner {
        assert book'[|book|] == h;
      } else {
        var i :| 0 <= i < |book| && book[i].Held? && book[i].owner == o;
        assert book'[i] == book[i];
      }
    }
  }

  /** A live lease's part, globally and under its owner. */
  lemma {:induction false} LeaseCounted(limits: Limits, total: Gauge, owners: map<Owner, Gauge>, book: Book, i: nat)
    requires Balanced(limits, total, owners, book) && i < |book| && book[i].Held?
    ensures var own := Shown(owners, book[i].owner);
            && book[i].items <= own.items && book[i].bytes <= own.bytes
            && book[i].items <= total.items && book[i].bytes <= total.bytes
            && ((book[i].items > 0 || book[i].bytes > 0) ==> book[i].owner in owners)
  {
    var owner := book[i].owner;
    PartOfSums(book, i);
    PartOfSums(Of(book, owner), i);
    assert Shown(owners, owner) == SumsOf(book, owner);
  }

  lemma {:induction false} OwnUpdate(book: Book, i: nat, h: Hold, owner: Owner)
    requires i < |book| && book[i].Held? && (h.Held? ==> h.owner == book[i].owner)
    ensures var before, after := SumsOf(book, owner), SumsOf(book[i := h], owner);
            if owner == book[i].owner then
              && after.items + book[i].items == before.items + (if h.Held? then h.items else 0)
              && after.bytes + book[i].bytes == before.bytes + (if h.Held? then h.bytes else 0)
            else after == before
  {
    OfUpdate(book, i, h, owner);
    if owner == book[i].owner {
      SumsUpdate(Of(book, owner), i, h);
    } else {
      assert Of(book[i := h], owner) == Of(book, owner);
    }
  }

  lemma {:induction false} OthersKeepLease(book: Book, i: nat, h: Hold, owner: Owner)
    requires i < |book| && book[i].Held? && owner != book[i].owner && HasLease(book, owner)
    ensures HasLease(book[i := h], owner)
  {
    var j :| 0 <= j < |book| && book[j].Held? && book[j].owner == owner;
    assert book[i := h][j] == book[j];
  }

  /** One lease changes to `h`, or goes, and the gauges follow it. */
  ghost predicate Follows(total: Gauge, owners: map<Owner, Gauge>, was: Hold, h: Hold, total': Gauge, owners': map<Owner, Gauge>)
    requires was.Held?
  {
    var items, bytes := if h.Held? then h.items else 0, if h.Held? then h.bytes else 0;
    && items <= was.items && bytes <= was.bytes && (h.Held? ==> h.owner == was.owner)
    && total'.items + was.items == total.items + items && total'.bytes + was.bytes == total.bytes + bytes
    && (forall o :: Shown(owners', o).items + (if o == was.owner then was.items else 0) == Shown(owners, o).items + if o == was.owner then items else 0)
    && (forall o :: Shown(owners', o).bytes + (if o == was.owner then was.bytes else 0) == Shown(owners, o).bytes + if o == was.owner then bytes else 0)
    && (forall o | o in owners' :: o in owners)
  }

  lemma {:induction false} Followed(limits: Limits, total: Gauge, owners: map<Owner, Gauge>, book: Book, i: nat, h: Hold,
                                    total': Gauge, owners': map<Owner, Gauge>)
    requires Balanced(limits, total, owners, book) && i < |book| && book[i].Held?
    requires Follows(total, owners, book[i], h, total', owners')
    requires book[i].owner in owners' ==> HasLease(book[i := h], book[i].owner)
    ensures Balanced(limits, total', owners', book[i := h])
  {
    SumsUpdate(book, i, h);
    forall o ensures Shown(owners', o) == SumsOf(book[i := h], o) && Within(SumsOf(book[i := h], o), limits.ownerItems, limits.ownerBytes) {
      OwnUpdate(book, i, h, o);
      assert Shown(owners, o) == SumsOf(book, o);
      hide SumsOf;
    }
    forall o | o in owners' ensures HasLease(book[i := h], o) {
      if o != book[i].owner {
        OthersKeepLease(book, i, h, o);
      }
    }
  }

  /** Bytes move from one lease of an owner to another. */
  lemma {:induction false} Shifted(limits: Limits, total: Gauge, owners: map<Owner, Gauge>, book: Book, i: nat, j: nat)
    requires Balanced(limits, total, owners, book) && i < |book| && j < |book| && i != j
    requires book[i].Held? && book[j].Held? && book[j].owner == book[i].owner
    ensures Balanced(limits, total, owners, book[i := book[i].(bytes := book[i].bytes + book[j].bytes)][j := book[j].(bytes := 0)])
  {
    var middle := book[i := book[i].(bytes := book[i].bytes + book[j].bytes)];
    var after := middle[j := book[j].(bytes := 0)];
    SumsUpdate(book, i, middle[i]);
    SumsUpdate(middle, j, after[j]);
    forall o ensures SumsOf(after, o) == SumsOf(book, o) {
      OwnUpdate(book, i, middle[i], o);
      OwnUpdate(middle, j, after[j], o);
    }
    forall o | o in owners ensures HasLease(after, o) {
      var k :| 0 <= k < |book| && book[k].Held? && book[k].owner == o;
      assert after[k].Held? && after[k].owner == o;
    }
  }

  // ---- leases that hold an item ----

  ghost predicate WithItems(book: Book) {
    forall i | 0 <= i < |book| && book[i].Held? :: book[i].items >= 1
  }

  /** When every live lease holds an item, the owners with an entry are exactly the owners with a live lease. */
  lemma {:induction false} EntryIffLease(limits: Limits, total: Gauge, owners: map<Owner, Gauge>, book: Book, owner: Owner)
    requires Balanced(limits, total, owners, book) && WithItems(book)
    ensures owner in owners <==> HasLease(book, owner)
  {
    if HasLease(book, owner) {
      var i :| 0 <= i < |book| && book[i].Held? && book[i].owner == owner;
      LeaseCounted(limits, total, owners, book, i);
    }
  }

  // ---- leases of one item ----

  /** Every live lease holds one item, and its bytes are within a range. */
  ghost predicate Singles(book: Book, least: nat, most: nat) {
    forall i | 0 <= i < |book| && book[i].Held? :: book[i].items == 1 && least <= book[i].bytes <= most
  }

  lemma {:induction false} SinglesSums(book: Book, least: nat, most: nat)
    requires Singles(book, least, most)
    ensures least * Items(book) <= Bytes(book) <= most * Items(book)
  {
    if book != [] {
      var n := |book| - 1;
      SinglesSums(book[..n], least, most);
      assert Items(book) == Items(book[..n]) + if book[n].Held? then 1 else 0;
      TimesNext(least, Items(book[..n]));
      TimesNext(most, Items(book[..n]));
    }
  }

  lemma {:induction false} TimesNext(k: nat, n: nat)
    ensures k * (n + 1) == k * n + k
  {
  }

  /** An owner with an entry has an item. */
  lemma {:induction false} EntryHasItem(limits: Limits, total: Gauge, owners: map<Owner, Gauge>, book: Book, owner: Owner, least: nat, most: nat)
    requires Balanced(limits, total, owners, book) && Singles(book, least, most) && owner in owners
    ensures owners[owner].items > 0
  {
    var i :| 0 <= i < |book| && book[i].Held? && book[i].owner == owner;
    LeaseCounted(limits, total, owners, book, i);
  }

  lemma {:induction false} OwnWithinTotal(limits: Limits, total: Gauge, owners: map<Owner, Gauge>, book: Book, owner: Owner)
    requires Balanced(limits, total, owners, book)
    ensures Within(Shown(owners, owner), total.items, total.bytes)
  {
    PartSums(book, owner);
    assert Shown(owners, owner) == SumsOf(book, owner);
  }

  lemma {:induction false} PartSums(book: Book, owner: Owner)
    ensures Items(Of(book, owner)) <= Items(book) && Bytes(Of(book, owner)) <= Bytes(book)
  {
    if book != [] {
      var n := |book| - 1;
      PartSums(book[..n], owner);
      assert Of(book, owner)[..n] == Of(book[..n], owner);
    }
  }
}
