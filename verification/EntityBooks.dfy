/** The entity books: the live table, and the flat array that answers for it. */
module EntityLive {
  import OrderedMap
  import opened EntitySpec
  import opened Options

  /** `1 << HANDLE_ENTRY_BITS`: every index an entity handle can carry. */
  const FLAT_LEN: nat := 32768

  const ABSENT := Entry(0, 0)

  const U64_MAX: nat := 0xFFFF_FFFF_FFFF_FFFF

  class LiveTable {
    var entries: map<int, Entry>
    var nextId: nat

    ghost function Contents(): Books
      reads this
    {
      Books(entries, nextId)
    }

    constructor (first: nat)
      ensures Contents() == Books(map[], first)
    {
      entries, nextId := map[], first;
    }

    method Insert(index: int, serial: int) returns (id: nat)
      modifies this
      ensures id == old(nextId) && Contents() == Mint(old(Contents()), index, serial)
    {
      id := nextId;
      nextId := nextId + 1;
      entries := entries[index := Entry(id, serial)];
    }

    method Remove(index: int) returns (removed: Option<Entry>)
      modifies this`entries
      ensures removed == Get(old(Contents()), index) && entries == old(entries) - {index}
    {
      removed := if index in entries then Some(entries[index]) else None;
      entries := entries - {index};
    }

    method Clear()
      modifies this`entries
      ensures entries == map[]
    {
      entries := map[];
    }
  }

  /** What is told of an index whose lifecycle moved: the id it displaced, if any. */
  datatype Retirement = Retirement(index: int, retired: Option<nat>)

  function Displaced(b: Books, index: int): Option<nat> {
    if index in b.entries then Some(b.entries[index].id) else None
  }

  class EntityBooks {
    const live: LiveTable
    const flat: array<Entry>
    var mapEpoch: nat
    var repairArmed: bool
    var lifecycle: seq<Retirement>

    ghost function Contents(): Books
      reads live
    {
      live.Contents()
    }

    /** The array never disagrees with the table. */
    ghost predicate Mirrored()
      reads live, flat
    {
      flat.Length == FLAT_LEN && forall i | 0 <= i < FLAT_LEN :: flat[i] == if i in live.entries then live.entries[i] else ABSENT
    }

    ghost predicate Valid()
      reads live, flat
    {
      Mirrored() && Minted(Contents())
    }

    constructor ()
      ensures Valid() && fresh(live) && fresh(flat) && Contents() == Books(map[], 1)
      ensures mapEpoch == 1 && !repairArmed && lifecycle == []
    {
      live := new LiveTable(1);
      flat := new Entry[FLAT_LEN](_ => ABSENT);
      mapEpoch, repairArmed, lifecycle := 1, false, [];
    }

    /** Copies the table's entry for one index, or its absence, into the array. */
    method Mirror(index: int)
      requires flat.Length == FLAT_LEN
      requires forall i | 0 <= i < FLAT_LEN && i != index :: flat[i] == if i in live.entries then live.entries[i] else ABSENT
      modifies flat
      ensures Mirrored()
    {
      if 0 <= index < FLAT_LEN {
        flat[index] := if index in live.entries then live.entries[index] else ABSENT;
      }
    }

    method MirrorAll()
      requires flat.Length == FLAT_LEN
      modifies flat
      ensures Mirrored()
    {
      for i := 0 to FLAT_LEN
        invariant forall j | 0 <= j < i :: flat[j] == ABSENT
      {
        flat[i] := ABSENT;
      }
      var todo := live.entries.Keys;
      while todo != {}
        invariant todo <= live.entries.Keys
        invariant forall i | 0 <= i < FLAT_LEN :: flat[i] == if i in live.entries && i !in todo then live.entries[i] else ABSENT
        decreases todo
      {
        OrderedMap.EmptyOrInhabited(todo);
        var index :| index in todo;
        if 0 <= index < FLAT_LEN {
          flat[index] := live.entries[index];
        }
        todo := todo - {index};
      }
    }

    method RetireLifecycle(index: int, retired: Option<nat>)
      modifies this`lifecycle
      ensures lifecycle == old(lifecycle) + [Retirement(index, retired)]
    {
      lifecycle := lifecycle + [Retirement(index, retired)];
    }

    method OnCreated(index: int, serial: int) returns (id: nat)
      requires Valid()
      modifies live, flat, this`lifecycle
      ensures Valid() && Contents() == Step(old(Contents()), Created(index, serial))
      ensures Live(Contents(), index, id) && !Live(old(Contents()), index, id)
      ensures lifecycle == old(lifecycle) + [Retirement(index, Displaced(old(Contents()), index))]
    {
      var retired := if index in live.entries then Some(live.entries[index].id) else None;
      id := live.Insert(index, serial);
      Mirror(index);
      RetireLifecycle(index, retired);
    }

    method OnSpawned(index: int, serial: int)
      requires Valid()
      modifies live, flat, this`lifecycle
      ensures Valid() && Contents() == Step(old(Contents()), Spawned(index, serial))
      ensures lifecycle == old(lifecycle)
              + [Retirement(index, if Matches(old(Contents()), index, serial) then None else Displaced(old(Contents()), index))]
    {
      var retired := None;
      if index !in live.entries || live.entries[index].serial != serial {
        retired := if index in live.entries then Some(live.entries[index].id) else None;
        var _ := live.Insert(index, serial);
        Mirror(index);
      }
      RetireLifecycle(index, retired);
    }

    method OnDeleted(index: int, serial: int) returns (removed: Option<nat>)
      requires Valid()
      modifies live, flat, this`lifecycle
      ensures Valid() && Contents() == Step(old(Contents()), Deleted(index, serial))
      ensures removed == if Matches(old(Contents()), index, serial) then Displaced(old(Contents()), index) else None
      ensures lifecycle == old(lifecycle) + [Retirement(index, removed)]
    {
      removed := None;
      if index in live.entries && live.entries[index].serial == serial {
        var entry := live.Remove(index);
        removed := Some(entry.value.id);
        Mirror(index);
      }
      RetireLifecycle(index, removed);
    }

    /** A raw handle is adopted only as the live pair it names. */
    method Adopt(index: int, serial: int) returns (id: Option<nat>)
      requires Valid()
      ensures id.Some? <==> Matches(Contents(), index, serial)
      ensures id.Some? ==> Live(Contents(), index, id.value) && id.value != 0
    {
      if index in live.entries && live.entries[index].serial == serial {
        return Some(live.entries[index].id);
      }
      id := None;
    }

    /** The array answers what the table would, for every index. */
    method EngineSerialFor(index: int, id: nat) returns (serial: Option<int>)
      requires Valid()
      ensures serial == if Live(Contents(), index, id) then Some(Contents().entries[index].serial) else None
    {
      if id == 0 {
        return None;
      }
      if 0 <= index < FLAT_LEN {
        return if flat[index].id == id then Some(flat[index].serial) else None;
      }
      serial := if index in live.entries && live.entries[index].id == id then Some(live.entries[index].serial) else None;
    }

    /** The allocator goes on; the epoch counts up and sticks at zero if it ever runs out. */
    method ClearForMapTransition()
      requires Valid() && mapEpoch <= U64_MAX
      modifies live, flat, this`mapEpoch, this`repairArmed
      ensures Valid() && Contents() == Step(old(Contents()), MapCleared)
      ensures repairArmed && mapEpoch <= U64_MAX
      ensures mapEpoch == if old(mapEpoch) == 0 || old(mapEpoch) == U64_MAX then 0 else old(mapEpoch) + 1
    {
      mapEpoch := if mapEpoch == 0 || mapEpoch + 1 > U64_MAX then 0 else mapEpoch + 1;
      live.Clear();
      MirrorAll();
      repairArmed := true;
    }

    method TakeRepairArmed() returns (armed: bool)
      modifies this`repairArmed
      ensures armed == old(repairArmed) && !repairArmed
    {
      armed := repairArmed;
      repairArmed := false;
    }

    method RepairReconcile(slots: seq<Slot>)
      requires Valid()
      modifies live, flat
      ensures Valid() && Contents() == Step(old(Contents()), Repaired(slots))
    {
      StepKept(Contents(), Repaired(slots));
      var seen: set<int> := {};
      for k := 0 to |slots|
        invariant Contents() == UpsertAll(old(Contents()), slots[..k])
        invariant forall index :: index in seen <==> Snapshotted(slots[..k], index)
      {
        assert slots[..k + 1][..k] == slots[..k];
        SnapshottedNext(slots, k);
        var index, serial := slots[k].index, slots[k].serial;
        seen := seen + {index};
        if index !in live.entries || live.entries[index].serial != serial {
          var _ := live.Insert(index, serial);
        }
      }
      assert slots[..|slots|] == slots;
      ghost var full := UpsertAll(old(Contents()), slots).entries;
      assert live.entries == full && forall index :: index in seen <==> Snapshotted(slots, index);
      var todo := live.entries.Keys;
      while todo != {}
        invariant todo <= full.Keys && live.nextId == UpsertAll(old(Contents()), slots).next
        invariant forall index :: index in live.entries <==> index in full && (index in todo || index in seen)
        invariant forall index | index in live.entries :: live.entries[index] == full[index]
        decreases todo
      {
        OrderedMap.EmptyOrInhabited(todo);
        var index :| index in todo;
        if index !in seen {
          var _ := live.Remove(index);
        }
        todo := todo - {index};
      }
      EvictedIs(UpsertAll(old(Contents()), slots), slots, live.entries);
      MirrorAll();
    }
  }

  lemma {:induction false} EvictedIs(b: Books, slots: seq<Slot>, entries: map<int, Entry>)
    requires forall index :: index in entries <==> index in b.entries && Snapshotted(slots, index)
    requires forall index | index in entries :: entries[index] == b.entries[index]
    ensures Evicted(b, slots) == Books(entries, b.next)
  {
    var evicted := Evicted(b, slots).entries;
    forall index ensures index in entries <==> index in evicted {
      assert index in evicted <==> index in b.entries && Snapshotted(slots, index);
    }
    assert entries == evicted;
  }

  lemma {:induction false} SnapshottedNext(slots: seq<Slot>, k: nat)
    requires k < |slots|
    ensures forall index :: Snapshotted(slots[..k + 1], index) <==> Snapshotted(slots[..k], index) || slots[k].index == index
  {
  }

  /** The id that is announced as retired is the one that was live and no longer is. */
  lemma {:induction false} RetiredExactly(b: Books, index: int, serial: int, id: nat)
    requires Minted(b)
    ensures Displaced(b, index) == Some(id) <==> Live(b, index, id) && !Live(Step(b, Created(index, serial)), index, id)
    ensures !Matches(b, index, serial) && Displaced(b, index) == Some(id)
            <==> Live(b, index, id) && !Live(Step(b, Spawned(index, serial)), index, id)
    ensures Matches(b, index, serial) && Displaced(b, index) == Some(id)
            <==> Live(b, index, id) && !Live(Step(b, Deleted(index, serial)), index, id)
  {
  }

  /** Any run of notifications, on the real books. */
  method PlayNotices(books: EntityBooks, notices: seq<Notice>)
    requires books.Valid() && books.mapEpoch <= U64_MAX
    modifies books, books.live, books.flat
    ensures books.Valid()
    ensures books.Contents() == Run(old(books.Contents()), notices)
  {
    for k := 0 to |notices|
      invariant books.Valid() && books.mapEpoch <= U64_MAX
      invariant books.Contents() == Run(old(books.Contents()), notices[..k])
    {
      hide Minted, Step, EntityBooks.Mirrored;
      assert notices[..k + 1][..k] == notices[..k];
      var notice := notices[k];
      match notice {
        case Created(index, serial) => var _ := books.OnCreated(index, serial);
        case Spawned(index, serial) => books.OnSpawned(index, serial);
        case Deleted(index, serial) => var _ := books.OnDeleted(index, serial);
        case MapCleared => books.ClearForMapTransition();
        case Repaired(slots) => books.RepairReconcile(slots);
      }
    }
    assert notices[..|notices|] == notices;
  }
}
