/** The entity books as a state machine: which (index, host id) pairs are live after each notification. */
module EntitySpec {
  import opened Options

  /** A host id with the engine serial it was minted for. */
  datatype Entry = Entry(id: nat, serial: int)

  datatype Books = Books(entries: map<int, Entry>, next: nat)

  datatype Slot = Slot(index: int, serial: int)

  datatype Notice =
    | Created(index: int, serial: int)
    | Spawned(index: int, serial: int)
    | Deleted(index: int, serial: int)
    | MapCleared
    | Repaired(slots: seq<Slot>)

  function Get(b: Books, index: int): Option<Entry> {
    if index in b.entries then Some(b.entries[index]) else None
  }

  predicate Matches(b: Books, index: int, serial: int) {
    index in b.entries && b.entries[index].serial == serial
  }

  function Mint(b: Books, index: int, serial: int): Books {
    Books(b.entries[index := Entry(b.next, serial)], b.next + 1)
  }

  function Upsert(b: Books, index: int, serial: int): Books {
    if Matches(b, index, serial) then b else Mint(b, index, serial)
  }

  function UpsertAll(b: Books, slots: seq<Slot>): Books {
    if slots == [] then b else
      var n := |slots| - 1;
      Upsert(UpsertAll(b, slots[..n]), slots[n].index, slots[n].serial)
  }

  ghost predicate Snapshotted(slots: seq<Slot>, index: int) {
    exists i :: 0 <= i < |slots| && slots[i].index == index
  }

  ghost function Evicted(b: Books, slots: seq<Slot>): Books {
    b.(entries := map index | index in b.entries && Snapshotted(slots, index) :: b.entries[index])
  }

  ghost function Step(b: Books, n: Notice): Books {
    match n
    case Created(index, serial) => Mint(b, index, serial)
    case Spawned(index, serial) => Upsert(b, index, serial)
    case Deleted(index, serial) => if Matches(b, index, serial) then b.(entries := b.entries - {index}) else b
    case MapCleared => b.(entries := map[])
    case Repaired(slots) => Evicted(UpsertAll(b, slots), slots)
  }

  ghost function Run(b: Books, ns: seq<Notice>): Books {
    if ns == [] then b else Step(Run(b, ns[..|ns| - 1]), ns[|ns| - 1])
  }

  predicate Live(b: Books, index: int, id: nat) {
    index in b.entries && b.entries[index].id == id
  }

  /** Every id in use was handed out: it is at least 1 and below the allocator, and no two indices share one. */
  ghost predicate Minted(b: Books) {
    && b.next >= 1
    && (forall index | index in b.entries :: 1 <= b.entries[index].id < b.next)
    && (forall i, j | i in b.entries && j in b.entries && i != j :: b.entries[i].id != b.entries[j].id)
  }

  // ---- laws of one notification ----

  lemma {:induction false} UpsertAllKept(b: Books, slots: seq<Slot>)
    requires Minted(b)
    ensures Minted(UpsertAll(b, slots)) && UpsertAll(b, slots).next >= b.next
  {
    if slots != [] {
      UpsertAllKept(b, slots[..|slots| - 1]);
    }
  }

  lemma {:induction false} StepKept(b: Books, n: Notice)
    requires Minted(b)
    ensures Minted(Step(b, n)) && Step(b, n).next >= b.next
  {
    match n
    case Repaired(slots) => UpsertAllKept(b, slots);
    case _ =>
  }

  /** What an upsert does to a pair whose id was already handed out: it may end it, never start it, and keeps its serial. */
  ghost predicate NoneRevived(b: Books, after: Books) {
    forall index, id: nat | id < b.next && Live(after, index, id) :: Live(b, index, id) && after.entries[index] == b.entries[index]
  }

  lemma {:induction false} UpsertAllRevivesNone(b: Books, slots: seq<Slot>)
    requires Minted(b)
    ensures NoneRevived(b, UpsertAll(b, slots))
  {
    if slots != [] {
      UpsertAllRevivesNone(b, slots[..|slots| - 1]);
      UpsertAllKept(b, slots[..|slots| - 1]);
    }
  }

  lemma {:induction false} StepRevivesNone(b: Books, n: Notice)
    requires Minted(b)
    ensures NoneRevived(b, Step(b, n))
  {
    match n
    case Repaired(slots) => UpsertAllRevivesNone(b, slots);
    case _ =>
  }

  // ---- laws of whole runs ----

  lemma {:induction false} RunKept(b: Books, ns: seq<Notice>)
    requires Minted(b)
    ensures Minted(Run(b, ns)) && Run(b, ns).next >= b.next
  {
    if ns != [] {
      RunKept(b, ns[..|ns| - 1]);
      StepKept(Run(b, ns[..|ns| - 1]), ns[|ns| - 1]);
    }
  }

  lemma {:induction false} RunSplit(b: Books, before: seq<Notice>, after: seq<Notice>)
    ensures Run(b, before + after) == Run(Run(b, before), after)
  {
    if after == [] {
      assert before + after == before;
    } else {
      var n := |after| - 1;
      RunSplit(b, before, after[..n]);
      assert (before + after)[..|before| + n] == before + after[..n];
    }
  }

  /** Of the pairs whose id has been handed out, whatever is live later is live now, with the same serial. */
  lemma {:induction false} RunRevivesNone(b: Books, ns: seq<Notice>)
    requires Minted(b)
    ensures NoneRevived(b, Run(b, ns))
  {
    if ns != [] {
      var before := Run(b, ns[..|ns| - 1]);
      RunRevivesNone(b, ns[..|ns| - 1]);
      RunKept(b, ns[..|ns| - 1]);
      StepRevivesNone(before, ns[|ns| - 1]);
    }
  }

  /** Over every run: a pair that stopped being live never becomes live again, and while it is live its engine serial
      does not change. `early`, `middle` and `late` are any three stretches of notifications in a row. */
  lemma {:induction false} NoAliasing(early: seq<Notice>, middle: seq<Notice>, late: seq<Notice>, index: int, id: nat)
    ensures var s0 := Run(Books(map[], 1), early);
            var s1 := Run(Books(map[], 1), early + middle);
            var s2 := Run(Books(map[], 1), early + middle + late);
            Live(s0, index, id) && Live(s2, index, id) ==>
              Live(s1, index, id) && s0.entries[index].serial == s1.entries[index].serial == s2.entries[index].serial
  {
    var b := Books(map[], 1);
    RunSplit(b, early, middle);
    RunSplit(b, early + middle, late);
    RunKept(b, early);
    RunKept(Run(b, early), middle);
    RunRevivesNone(Run(b, early), middle);
    RunRevivesNone(Run(b, early + middle), late);
  }

  ghost predicate DistinctIndices(slots: seq<Slot>) {
    forall i, j | 0 <= i < j < |slots| :: slots[i].index != slots[j].index
  }

  lemma {:induction false} UpsertAllExact(b: Books, slots: seq<Slot>)
    requires DistinctIndices(slots)
    ensures var r := UpsertAll(b, slots);
            && (forall i | 0 <= i < |slots| :: slots[i].index in r.entries && r.entries[slots[i].index].serial == slots[i].serial)
            && (forall i | 0 <= i < |slots| && Matches(b, slots[i].index, slots[i].serial) :: r.entries[slots[i].index] == b.entries[slots[i].index])
            && (forall index | !Snapshotted(slots, index) :: Get(r, index) == Get(b, index))
  {
    if slots != [] {
      var n := |slots| - 1;
      UpsertAllExact(b, slots[..n]);
      var before := UpsertAll(b, slots[..n]);
      assert !Snapshotted(slots[..n], slots[n].index);
      assert Get(before, slots[n].index) == Get(b, slots[n].index);
      forall index | !Snapshotted(slots, index) ensures !Snapshotted(slots[..n], index) && index != slots[n].index {
        assert slots[n].index != index;
      }
      assert forall i | 0 <= i < n :: slots[i] == slots[..n][i];
    }
  }

  /** A repair leaves exactly the snapshot's indices, with its serials, and every entry that matched keeps its id. */
  lemma {:induction false} RepairExact(b: Books, slots: seq<Slot>)
    requires DistinctIndices(slots)
    ensures var r := Step(b, Repaired(slots));
            && (forall index :: index in r.entries <==> Snapshotted(slots, index))
            && (forall i | 0 <= i < |slots| :: r.entries[slots[i].index].serial == slots[i].serial)
            && (forall i | 0 <= i < |slots| && Matches(b, slots[i].index, slots[i].serial) :: r.entries[slots[i].index] == b.entries[slots[i].index])
  {
    UpsertAllExact(b, slots);
    forall index | Snapshotted(slots, index) ensures index in UpsertAll(b, slots).entries {
      var i :| 0 <= i < |slots| && slots[i].index == index;
    }
  }

  // ---- what ends a pair, and what starts one ----

  /** What ends a live pair of an index: another creation there, a spawn with another serial, a deletion with its own, a change of
      map, or a snapshot that lacks the index or gives it another serial. */
  ghost predicate Ends(n: Notice, index: int, serial: int) {
    match n
    case Created(i, _) => i == index
    case Spawned(i, s) => i == index && s != serial
    case Deleted(i, s) => i == index && s == serial
    case MapCleared => true
    case Repaired(slots) =>
      || (forall k | 0 <= k < |slots| :: slots[k].index != index)
      || (exists k :: 0 <= k < |slots| && slots[k].index == index && slots[k].serial != serial)
  }

  ghost predicate Keeps(b: Books, after: Books, index: int)
    requires index in b.entries
  {
    index in after.entries && after.entries[index] == b.entries[index]
  }

  lemma {:induction false} UpsertAllKeeps(b: Books, slots: seq<Slot>, index: int)
    requires Minted(b) && index in b.entries
    ensures Keeps(b, UpsertAll(b, slots), index) <==>
            forall k | 0 <= k < |slots| && slots[k].index == index :: slots[k].serial == b.entries[index].serial
  {
    if slots != [] {
      var n := |slots| - 1;
      var before := UpsertAll(b, slots[..n]);
      UpsertAllKeeps(b, slots[..n], index);
      UpsertAllKept(b, slots[..n]);
      assert forall k | 0 <= k < n :: slots[..n][k] == slots[k];
      UpsertAllRevivesNone(before, [slots[n]]);
      assert UpsertAll(before, [slots[n]]) == Upsert(before, slots[n].index, slots[n].serial) by {
        assert [slots[n]][..0] == [];
      }
    }
  }

  /** A live pair outlives a notification exactly if that is none of these: a spawn of the serial it has leaves it its id, and a stale
      deletion leaves it alone. */
  lemma {:induction false} StepKeepsExactly(b: Books, n: Notice, index: int)
    requires Minted(b) && index in b.entries
    ensures Keeps(b, Step(b, n), index) <==> !Ends(n, index, b.entries[index].serial)
  {
    if n.Repaired? {
      UpsertAllKeeps(b, n.slots, index);
    }
  }

  /** The same over any run. */
  lemma {:induction false} RunKeepsExactly(b: Books, ns: seq<Notice>, index: int)
    requires Minted(b) && index in b.entries
    ensures Keeps(b, Run(b, ns), index) <==> forall k | 0 <= k < |ns| :: !Ends(ns[k], index, b.entries[index].serial)
  {
    hide Ends, Step;
    if ns != [] {
      var n := |ns| - 1;
      var before := Run(b, ns[..n]);
      RunKeepsExactly(b, ns[..n], index);
      RunKept(b, ns[..n]);
      assert forall k | 0 <= k < n :: ns[..n][k] == ns[k];
      if Keeps(b, before, index) {
        StepKeepsExactly(before, ns[n], index);
      } else if Keeps(b, Run(b, ns), index) {
        StepRevivesNone(before, ns[n]);
        assert Live(Step(before, ns[n]), index, b.entries[index].id);
      }
    }
  }

  /** Which indices are live after a notification: those it names as present, and those whose pair it does not end. */
  lemma {:induction false} LiveExactly(b: Books, n: Notice, index: int)
    requires Minted(b)
    ensures index in Step(b, n).entries <==>
            || (match n
                case Created(i, _) => i == index
                case Spawned(i, _) => i == index
                case Repaired(slots) => exists k :: 0 <= k < |slots| && slots[k].index == index
                case _ => false)
            || (index in b.entries && !Ends(n, index, b.entries[index].serial))
  {
    if n.Repaired? {
      UpsertAllHas(b, n.slots, index);
    }
  }

  lemma {:induction false} UpsertAllHas(b: Books, slots: seq<Slot>, index: int)
    ensures index in UpsertAll(b, slots).entries <==> index in b.entries || exists k :: 0 <= k < |slots| && slots[k].index == index
  {
    if slots != [] {
      var n := |slots| - 1;
      UpsertAllHas(b, slots[..n], index);
      assert forall k | 0 <= k < n :: slots[..n][k] == slots[k];
      if exists k :: 0 <= k < n && slots[..n][k].index == index {
        var k :| 0 <= k < n && slots[..n][k].index == index;
        assert slots[k].index == index;
      }
    }
  }

  /** What a creation makes live, and a spawn that does not match: the next id, with the serial told; otherwise nothing changes. */
  lemma {:induction false} MintedNext(b: Books, index: int, serial: int)
    ensures Step(b, Created(index, serial)) == Books(b.entries[index := Entry(b.next, serial)], b.next + 1)
    ensures Step(b, Spawned(index, serial))
            == if index in b.entries && b.entries[index].serial == serial then b
               else Books(b.entries[index := Entry(b.next, serial)], b.next + 1)
  {
  }
}
