/** Building a query result: what is charged to the job's lease before it is allocated. */
module DbResults {
  import opened Ledger
  import opened Admission
  import opened Jobs
  import U = Utf8

  /** Sizes of the header of a vector or a string, and of one value in a row. */
  const VEC_SIZE: nat := 24
  const VALUE_SIZE: nat := 24

  datatype Cell = NullCell | IntCell(int) | RealCell(real) | TextCell(U.Bytes) | BlobCell(U.Bytes)

  datatype DbValue = Null | Int(int) | Real(real) | Text(text: U.Bytes)

  datatype DbError = TooLarge | NotAdmitted(error: AdmissionError)

  datatype Outcome<T> = Done(value: T) | Failed(error: DbError)

  datatype QueryResult = QueryResult(columns: seq<U.Bytes>, rows: seq<seq<DbValue>>)

  ghost function ValueOf(c: Cell): DbValue {
    match c
    case NullCell => Null
    case IntCell(n) => Int(n)
    case RealCell(x) => Real(x)
    case TextCell(t) => Text(U.Lossy(t))
    case BlobCell(_) => Null
  }

  ghost function ValuesOf(cells: seq<Cell>): (r: seq<DbValue>)
    ensures |r| == |cells|
  {
    if cells == [] then [] else ValuesOf(cells[..|cells| - 1]) + [ValueOf(cells[|cells| - 1])]
  }

  ghost function RowsOf(rows: seq<seq<Cell>>): (r: seq<seq<DbValue>>)
    ensures |r| == |rows|
  {
    if rows == [] then [] else RowsOf(rows[..|rows| - 1]) + [ValuesOf(rows[|rows| - 1])]
  }

  // ---- what is charged ----

  /** The outer vector's capacity once it has been asked for room beyond `held` rows. */
  function NextCapacity(held: nat, capacity: nat, most: nat): (r: nat) {
    if held < capacity then capacity
    else
      var doubled := if capacity * 2 < 1 then 1 else capacity * 2;
      if doubled < most then doubled else most
  }

  function CapacityFor(k: nat, most: nat): nat {
    if k == 0 then 0 else NextCapacity(k - 1, CapacityFor(k - 1, most), most)
  }

  /** The capacity always covers the rows, within twice their number and within the row limit. */
  lemma {:induction false} CapacityBounds(k: nat, most: nat)
    requires k <= most
    ensures k <= CapacityFor(k, most) <= most
    ensures CapacityFor(k, most) <= 2 * k
  {
    if k > 0 {
      CapacityBounds(k - 1, most);
    }
  }

  function HeaderSize(names: seq<U.Bytes>): nat {
    Lengths(names) + 32 * |names|
  }

  function RowSize(names: seq<U.Bytes>): nat {
    32 + |names| * 32 + Lengths(names)
  }

  /** Everything that the first `k` rows and the column names are charged. */
  ghost function Charge(names: seq<U.Bytes>, input: seq<seq<Cell>>, most: nat, k: nat): nat
    requires k <= |input|
  {
    if k == 0 then HeaderSize(names)
    else
      Charge(names, input, most, k - 1) + RowSize(names)
      + SaturatingSub(CapacityFor(k, most), CapacityFor(k - 1, most)) * VEC_SIZE + TextBytes(ValuesOf(input[k - 1]))
  }

  lemma {:induction false} ChargeGrows(names: seq<U.Bytes>, input: seq<seq<Cell>>, most: nat, k: nat, n: nat)
    requires k <= n <= |input|
    ensures Charge(names, input, most, k) <= Charge(names, input, most, n)
    decreases n
  {
    hide CapacityFor, ValuesOf, TextBytes, RowSize, HeaderSize;
    if k < n {
      ChargeGrows(names, input, most, k, n - 1);
    }
  }

  // ---- what is retained ----

  function Lengths(names: seq<U.Bytes>): nat {
    if names == [] then 0 else Lengths(names[..|names| - 1]) + |names[|names| - 1]|
  }

  ghost function TextBytes(values: seq<DbValue>): nat {
    if values == [] then 0 else
      TextBytes(values[..|values| - 1]) + TextSize(values[|values| - 1])
  }

  ghost function TextSize(v: DbValue): nat {
    if v.Text? then |v.text| else 0
  }

  /** The row vectors, each allocated for `ncol` values, and their texts. */
  ghost function RowBytes(rows: seq<seq<DbValue>>, ncol: nat): nat {
    if rows == [] then 0 else RowBytes(rows[..|rows| - 1], ncol) + ncol * VALUE_SIZE + TextBytes(rows[|rows| - 1])
  }

  /** The column names with their headers, the outer vector with the headers of its rows, and the rows. */
  ghost function Retained(columns: seq<U.Bytes>, capacity: nat, rows: seq<seq<DbValue>>): nat {
    Lengths(columns) + |columns| * VEC_SIZE + capacity * VEC_SIZE + RowBytes(rows, |columns|)
  }

  // ---- moment by moment ----

  /** What is retained and what has been charged, after an allocation. */
  datatype Moment = Moment(retained: nat, charged: nat)

  /** After each value of a row that is being read; `held` and `charged` are those before the first. */
  ghost function CellMoments(held: nat, charged: nat, cells: seq<Cell>, j: nat): (r: seq<Moment>)
    requires j <= |cells|
    ensures |r| == j
  {
    if j == 0 then [] else
      var text := TextBytes(ValuesOf(cells[..j]));
      CellMoments(held, charged, cells, j - 1) + [Moment(held + text, charged + text)]
  }

  /** A row: the outer vector has its place, the row is allocated, then come its values. */
  ghost function RowMoments(held: nat, charged: nat, width: nat, cells: seq<Cell>): seq<Moment> {
    [Moment(held, charged), Moment(held + width * VALUE_SIZE, charged)] + CellMoments(held + width * VALUE_SIZE, charged, cells, |cells|)
  }

  /** The column names, then the first `k` rows. */
  ghost function Moments(names: seq<U.Bytes>, input: seq<seq<Cell>>, most: nat, k: nat): seq<Moment>
    requires k <= |input|
  {
    if k == 0 then [Moment(Retained(names, 0, []), HeaderSize(names))] else
      Moments(names, input, most, k - 1)
      + RowMoments(Retained(names, CapacityFor(k, most), RowsOf(input[..k - 1])), ChargeWithPlace(names, input, most, k), |names|, input[k - 1])
  }

  /** Charged once the place of row `k` is, and before its values. */
  ghost function ChargeWithPlace(names: seq<U.Bytes>, input: seq<seq<Cell>>, most: nat, k: nat): nat
    requires 0 < k <= |input|
  {
    Charge(names, input, most, k - 1) + RowSize(names) + SaturatingSub(CapacityFor(k, most), CapacityFor(k - 1, most)) * VEC_SIZE
  }

  /** At each moment at least as much had been charged as was retained, and no more than in the end. */
  ghost predicate Covered(trace: seq<Moment>, charged: nat) {
    forall i | 0 <= i < |trace| :: trace[i].retained <= trace[i].charged <= charged
  }

  lemma {:induction false} CellMomentsNext(held: nat, charged: nat, cells: seq<Cell>, j: nat)
    requires j < |cells|
    ensures var text := TextBytes(ValuesOf(cells[..j + 1]));
            CellMoments(held, charged, cells, j + 1) == CellMoments(held, charged, cells, j) + [Moment(held + text, charged + text)]
  {
  }

  lemma {:induction false} CellMomentsGrow(held: nat, charged: nat, cells: seq<Cell>, i: nat, j: nat)
    requires i <= j <= |cells|
    ensures CellMoments(held, charged, cells, i) <= CellMoments(held, charged, cells, j)
    decreases j
  {
    if i < j {
      CellMomentsGrow(held, charged, cells, i, j - 1);
    }
  }

  lemma {:induction false} MomentsGrow(names: seq<U.Bytes>, input: seq<seq<Cell>>, most: nat, k: nat, n: nat)
    requires k <= n <= |input|
    ensures Moments(names, input, most, k) <= Moments(names, input, most, n)
    decreases n
  {
    hide RowMoments, Retained, CapacityFor, ChargeWithPlace, RowsOf;
    if k < n {
      MomentsGrow(names, input, most, k, n - 1);
    }
  }

  /** A growable vector with its capacity in the open. */
  class RowVec {
    var items: seq<seq<DbValue>>
    var capacity: nat

    constructor ()
      ensures items == [] && capacity == 0
    {
      items, capacity := [], 0;
    }

    method ReserveExact(extra: nat)
      requires |items| == capacity
      modifies this`capacity
      ensures capacity == |items| + extra
    {
      capacity := |items| + extra;
    }

    /** Into spare capacity: a push never reallocates. */
    method Push(row: seq<DbValue>)
      requires |items| < capacity
      modifies this`items
      ensures items == old(items) + [row]
    {
      items := items + [row];
    }
  }

  class ResultSizer {
    var rows: nat
    var bytes: nat

    constructor ()
      ensures rows == 0 && bytes == 0
    {
      rows, bytes := 0, 0;
    }

    /** The limits hold, and what the lease was grown by is what is counted. */
    ghost predicate Counts(lease: JobLease, start: nat)
      reads this, lease.result`bytes
    {
      && rows <= lease.domain.policy.dbResultRows && bytes <= lease.domain.policy.dbResultBytes
      && lease.result.bytes == start + bytes
    }

    /** `n` more bytes are within the result limit, and the budget admits them. */
    ghost predicate Room(lease: JobLease, n: nat)
      reads this`bytes, lease.cancel, lease.domain.results
    {
      && !lease.cancel.cancelled && bytes + n <= lease.domain.policy.dbResultBytes
      && lease.domain.results.total.bytes + n <= lease.domain.policy.completionBytes
    }

    /** What the budget holds apart from what is counted here. */
    ghost function Others(lease: JobLease): int
      reads this`bytes, lease.domain.results
    {
      lease.domain.results.total.bytes - bytes
    }

    method Add(n: nat, lease: JobLease, ghost start: nat) returns (r: Outcome<nat>)
      requires lease.Ready() && Counts(lease, start)
      modifies this`bytes, lease.result`bytes, lease.domain.results
      ensures lease.Ready() && Counts(lease, start) && Others(lease) == old(Others(lease))
      ensures r.Done? <==> old(Room(lease, n))
      ensures bytes == old(bytes) + if r.Done? then n else 0
    {
      hide Domain.Valid, JobLease.Valid;
      if n > SaturatingSub(lease.domain.policy.dbResultBytes, bytes) {
        return Failed(TooLarge);
      }
      var answer := lease.Grow(n);
      if answer.Refused? {
        return Failed(NotAdmitted(answer.error));
      }
      bytes := bytes + n;
      r := Done(n);
    }

    /** A full vector is charged for before it grows, and it always grows. */
    method ReserveRowSlot(vec: RowVec, lease: JobLease, ghost start: nat) returns (r: Outcome<nat>)
      requires lease.Ready() && Counts(lease, start)
      requires |vec.items| <= vec.capacity && |vec.items| < lease.domain.policy.dbResultRows
      modifies this`bytes, vec`capacity, lease.result`bytes, lease.domain.results
      ensures lease.Ready() && Counts(lease, start) && Others(lease) == old(Others(lease))
      ensures var wanted := NextCapacity(|vec.items|, old(vec.capacity), lease.domain.policy.dbResultRows);
              var extra := SaturatingSub(wanted, old(vec.capacity)) * VEC_SIZE;
              && |vec.items| < wanted
              && (r.Done? <==> old(|vec.items| < vec.capacity) || old(Room(lease, extra)))
              && (r.Done? ==> vec.capacity == wanted && bytes == old(bytes) + extra)
      ensures r.Failed? ==> vec.capacity == old(vec.capacity) && bytes == old(bytes)
    {
      hide Domain.Valid, JobLease.Valid, JobLease.Ready;
      if |vec.items| == vec.capacity {
        var doubled := if vec.capacity * 2 < 1 then 1 else vec.capacity * 2;
        var capacity := if doubled < lease.domain.policy.dbResultRows then doubled else lease.domain.policy.dbResultRows;
        var extra := SaturatingSub(capacity, vec.capacity);
        r := Add(extra * VEC_SIZE, lease, start);
        if r.Failed? {
          return;
        }
        vec.ReserveExact(extra);
      }
      r := Done(0);
    }

    method Row(ncol: nat, columns: seq<U.Bytes>, lease: JobLease, ghost start: nat) returns (r: Outcome<nat>)
      requires lease.Ready() && Counts(lease, start) && ncol == |columns|
      modifies this, lease.result`bytes, lease.domain.results
      ensures lease.Ready() && Counts(lease, start) && Others(lease) == old(Others(lease))
      ensures r.Done? <==> old(rows) < lease.domain.policy.dbResultRows && old(Room(lease, RowSize(columns)))
      ensures rows == old(rows) + if r.Done? then 1 else 0
      ensures bytes == old(bytes) + if r.Done? then RowSize(columns) else 0
    {
      hide Domain.Valid, JobLease.Valid, JobLease.Ready;
      if rows >= lease.domain.policy.dbResultRows {
        return Failed(TooLarge);
      }
      var size := 32 + ncol * 32;
      for i := 0 to |columns|
        invariant size == 32 + ncol * 32 + Lengths(columns[..i])
      {
        assert columns[..i + 1][..i] == columns[..i];
        size := size + |columns[i]|;
      }
      assert columns[..|columns|] == columns;
      r := Add(size, lease, start);
      if r.Failed? {
        return;
      }
      rows := rows + 1;
    }
  }

  lemma {:induction false} LimitFits(lease: JobLease)
    requires lease.Ready()
    ensures lease.domain.policy.dbResultBytes < U.USIZE_MAX
  {
    assert lease.domain.policy.Sizes()[24] <= ISIZE_MAX / 16;
  }

  /** One value: a text is charged by the exact length of its decoding, before it is decoded. */
  method ReadCell(cell: Cell, size: ResultSizer, lease: JobLease, ghost start: nat) returns (r: Outcome<DbValue>)
    requires lease.Ready() && size.Counts(lease, start)
    modifies size`bytes, lease.result`bytes, lease.domain.results
    ensures lease.Ready() && size.Counts(lease, start) && size.Others(lease) == old(size.Others(lease))
    ensures r.Done? <==> !cell.TextCell? || old(size.Room(lease, TextSize(ValueOf(cell))))
    ensures r.Done? ==> r.value == ValueOf(cell)
    ensures size.bytes == old(size.bytes) + if r.Done? then TextSize(r.value) else 0
  {
    hide Domain.Valid, JobLease.Valid, JobLease.Ready;
    match cell
    case NullCell => r := Done(Null);
    case IntCell(n) => r := Done(Int(n));
    case RealCell(x) => r := Done(Real(x));
    case TextCell(t) =>
      LimitFits(lease);
      var n := U.Utf8LossyLen(t);
      var charged := size.Add(n, lease, start);
      if charged.Failed? {
        return Failed(charged.error);
      }
      var text := U.Utf8LossyOwned(t);
      r := Done(Text(text));
    case BlobCell(_) => r := Done(Null);
  }

  /** The values of a row, one after another; `held` is what is retained before the first. */
  method ReadRow(cells: seq<Cell>, size: ResultSizer, lease: JobLease, ghost start: nat, ghost held: nat)
    returns (r: Outcome<seq<DbValue>>, ghost moments: seq<Moment>)
    requires lease.Ready() && size.Counts(lease, start)
    modifies size`bytes, lease.result`bytes, lease.domain.results
    ensures lease.Ready() && size.Counts(lease, start) && size.Others(lease) == old(size.Others(lease))
    ensures r.Done? ==> r.value == ValuesOf(cells) && size.bytes == old(size.bytes) + TextBytes(r.value)
    ensures r.Failed? ==> !old(size.Room(lease, TextBytes(ValuesOf(cells))))
    ensures moments <= CellMoments(held, old(size.bytes), cells, |cells|) && (r.Done? ==> |moments| == |cells|)
    ensures old(size.bytes) <= size.bytes && forall i | 0 <= i < |moments| :: moments[i].charged <= size.bytes
  {
    hide Domain.Valid, JobLease.Valid, JobLease.Ready, ValueOf, TextSize, CellMoments, ValuesOf, TextBytes;
    var vals: seq<DbValue> := [];
    moments := [];
    NoCells(held, size.bytes, cells);
    for i := 0 to |cells|
      invariant lease.Ready() && size.Counts(lease, start) && size.Others(lease) == old(size.Others(lease))
      invariant vals == ValuesOf(cells[..i]) && size.bytes == old(size.bytes) + TextBytes(vals)
      invariant moments == CellMoments(held, old(size.bytes), cells, i)
      invariant forall i | 0 <= i < |moments| :: moments[i].charged <= size.bytes
    {
      CellMomentsGrow(held, old(size.bytes), cells, i, |cells|);
      CellMomentsNext(held, old(size.bytes), cells, i);
      CellsNext(cells, i);
      var v := ReadCell(cells[i], size, lease, start);
      if v.Failed? {
        TextWithin(cells, i);
        return Failed(v.error), moments;
      }
      vals := vals + [v.value];
      moments := moments + [Moment(held + TextBytes(vals), size.bytes)];
    }
    assert cells[..|cells|] == cells;
    r := Done(vals);
  }

  lemma {:induction false} NoCells(held: nat, charged: nat, cells: seq<Cell>)
    ensures CellMoments(held, charged, cells, 0) == [] && ValuesOf(cells[..0]) == [] && TextBytes([]) == 0
  {
  }

  lemma {:induction false} CellsNext(cells: seq<Cell>, i: nat)
    requires i < |cells|
    ensures ValuesOf(cells[..i + 1]) == ValuesOf(cells[..i]) + [ValueOf(cells[i])]
    ensures TextBytes(ValuesOf(cells[..i + 1])) == TextBytes(ValuesOf(cells[..i])) + TextSize(ValueOf(cells[i]))
  {
    assert cells[..i + 1][..i] == cells[..i];
    assert ValuesOf(cells[..i + 1])[..i] == ValuesOf(cells[..i]);
  }

  lemma {:induction false} TextWithin(cells: seq<Cell>, i: nat)
    requires i < |cells|
    ensures TextBytes(ValuesOf(cells[..i])) + TextSize(ValueOf(cells[i])) <= TextBytes(ValuesOf(cells))
    decreases |cells|
  {
    var last := |cells| - 1;
    var vs := ValuesOf(cells);
    assert vs[..last] == ValuesOf(cells[..last]);
    if i < last {
      TextWithin(cells[..last], i);
      assert cells[..last][..i] == cells[..i];
    }
  }

  /** What the column names are charged. */
  method HeaderBytes(names: seq<U.Bytes>) returns (total: nat)
    ensures total == HeaderSize(names)
  {
    total := 0;
    for i := 0 to |names|
      invariant total == Lengths(names[..i]) + 32 * i
    {
      assert names[..i + 1][..i] == names[..i];
      total := total + |names[i]| + 32;
    }
    assert names[..|names|] == names;
  }

  /** One row: it is charged for, then its place, then each text, before any of them is allocated. */
  method TakeRow(names: seq<U.Bytes>, cells: seq<Cell>, size: ResultSizer, out: RowVec, lease: JobLease, ghost start: nat)
    returns (r: Outcome<nat>, ghost moments: seq<Moment>)
    requires lease.Ready() && size.Counts(lease, start) && size.rows == |out.items| <= out.capacity
    modifies size, out, lease.result`bytes, lease.domain.results
    ensures lease.Ready() && size.Counts(lease, start) && size.Others(lease) == old(size.Others(lease))
    ensures var most := lease.domain.policy.dbResultRows;
            var wanted := NextCapacity(old(size.rows), old(out.capacity), most);
            var place := RowSize(names) + SaturatingSub(wanted, old(out.capacity)) * VEC_SIZE;
            var whole := place + TextBytes(ValuesOf(cells));
            && (r.Done? ==> old(size.rows) < most && size.bytes == old(size.bytes) + whole && out.capacity == wanted)
            && (r.Failed? ==> old(size.rows) >= most || !old(size.Room(lease, whole)))
            && var all := RowMoments(Retained(names, wanted, old(out.items)), old(size.bytes) + place, |names|, cells);
               moments <= all && (r.Done? ==> moments == all)
    ensures r.Done? ==> size.rows == old(size.rows) + 1 == |out.items| <= out.capacity && out.items == old(out.items) + [ValuesOf(cells)]
    ensures old(size.bytes) <= size.bytes && forall i | 0 <= i < |moments| :: moments[i].charged <= size.bytes
  {
    hide Domain.Valid, JobLease.Valid, JobLease.Ready, Lengths, ValuesOf, TextBytes, RowSize, CellMoments, RowBytes;
    moments := [];
    var row := size.Row(|names|, names, lease, start);
    if row.Failed? {
      return Failed(row.error), moments;
    }
    var slot := size.ReserveRowSlot(out, lease, start);
    if slot.Failed? {
      return Failed(slot.error), moments;
    }
    ghost var held := Retained(names, out.capacity, out.items);
    ghost var width := |names| * VALUE_SIZE;
    ghost var before := size.bytes;
    var vals, rest := ReadRow(cells, size, lease, start, held + width);
    moments := [Moment(held, before), Moment(held + width, before)] + rest;
    if vals.Failed? {
      return Failed(vals.error), moments;
    }
    out.Push(vals.value);
    r := Done(size.rows);
  }

  /** The query: column names, then row after row as the driver yields them. Whenever memory is held for the result, at
      least as much has been charged to the lease, and never more than the result limit. All of the rows are returned exactly
      when their number and their whole charge are within the limits, the budget has room for it, and the job stands.
      `trace` has a moment for every allocation that was made. */
  method RunQuery(names: seq<U.Bytes>, input: seq<seq<Cell>>, lease: JobLease)
    returns (r: Outcome<QueryResult>, ghost trace: seq<Moment>, ghost charged: nat)
    requires lease.Ready() && forall i | 0 <= i < |input| :: |input[i]| == |names|
    modifies lease.result`bytes, lease.domain.results
    ensures lease.Ready() && lease.result.bytes == old(lease.result.bytes) + charged
    ensures charged <= lease.domain.policy.dbResultBytes
    ensures var p := lease.domain.policy;
            var whole := Charge(names, input, p.dbResultRows, |input|);
            && (r.Done? <==> !lease.cancel.cancelled && |input| <= p.dbResultRows && whole <= p.dbResultBytes
                             && old(lease.domain.results.total).bytes + whole <= p.completionBytes)
            && (r.Done? ==> charged == whole)
    ensures r.Done? ==> r.value == QueryResult(names, RowsOf(input))
    ensures var all := Moments(names, input, lease.domain.policy.dbResultRows, |input|);
            trace <= all && (r.Done? ==> trace == all)
    ensures Covered(trace, charged)
  {
    hide Domain.Valid, JobLease.Valid, JobLease.Ready, RowBytes, Lengths, ValuesOf, TextBytes, RowsOf, CapacityFor, Charge, RowSize,
      Retained, RowMoments, Moments, Covered, NextCapacity;
    var most := lease.domain.policy.dbResultRows;
    NothingYet(names, input, most);
    var size := new ResultSizer();
    ghost var start := lease.result.bytes;
    ghost var before := lease.domain.results.total.bytes;
    var total := HeaderBytes(names);
    ChargeGrows(names, input, most, 0, |input|);
    MomentsGrow(names, input, most, 0, |input|);
    var columns := size.Add(total, lease, start);
    var out := new RowVec();
    trace, charged := [], size.bytes;
    NothingCovered(size.bytes);
    if columns.Failed? {
      return Failed(columns.error), trace, charged;
    }
    trace := [Moment(Retained(names, 0, []), size.bytes)];
    assert [] + trace == trace;
    CoveredMore([], trace, names, input, most, size.bytes, size.bytes);
    for k := 0 to |input|
      invariant lease.Ready() && size.Counts(lease, start) && fresh(size) && fresh(out)
      invariant size.Others(lease) == before && !lease.cancel.cancelled
      invariant out.items == RowsOf(input[..k]) && size.rows == k && k <= out.capacity == CapacityFor(k, most)
      invariant size.bytes == Charge(names, input, most, k) && trace == Moments(names, input, most, k)
      invariant charged == size.bytes && Covered(trace, charged)
    {
      RowsNext(input, k);
      ChargeNext(names, input, most, k);
      MomentsNext(names, input, most, k);
      var taken, more := TakeRow(names, input[k], size, out, lease, start);
      CoveredMore(trace, more, names, input, most, charged, size.bytes);
      trace, charged := trace + more, size.bytes;
      if taken.Failed? {
        return Failed(taken.error), trace, charged;
      }
    }
    assert input[..|input|] == input;
    WithinCompletion(lease);
    r := Done(QueryResult(names, out.items));
  }

  lemma {:induction false} NothingCovered(charged: nat)
    ensures Covered([], charged)
  {
  }

  lemma {:induction false} CoveredMore(trace: seq<Moment>, more: seq<Moment>, names: seq<U.Bytes>, input: seq<seq<Cell>>, most: nat, before: nat, after: nat)
    requires Covered(trace, before) && before <= after && trace + more <= Moments(names, input, most, |input|)
    requires forall i | 0 <= i < |more| :: more[i].charged <= after
    ensures Covered(trace + more, after)
  {
    hide Moments;
    MomentsCovered(names, input, most, |input|);
    forall i | 0 <= i < |trace + more| ensures (trace + more)[i].retained <= (trace + more)[i].charged <= after {
      assert (trace + more)[i] == Moments(names, input, most, |input|)[i];
    }
  }

  lemma {:induction false} MomentsNext(names: seq<U.Bytes>, input: seq<seq<Cell>>, most: nat, k: nat)
    requires k < |input|
    ensures var capacity := CapacityFor(k, most);
            var wanted := NextCapacity(k, capacity, most);
            var place := RowSize(names) + SaturatingSub(wanted, capacity) * VEC_SIZE;
            && Moments(names, input, most, k + 1) ==
                 Moments(names, input, most, k)
                 + RowMoments(Retained(names, wanted, RowsOf(input[..k])), Charge(names, input, most, k) + place, |names|, input[k])
            && Moments(names, input, most, k + 1) <= Moments(names, input, most, |input|)
  {
    hide RowMoments, Retained, RowSize, Charge, Lengths, RowsOf, CapacityFor, NextCapacity, Moments;
    MomentsGrow(names, input, most, k + 1, |input|);
    ChargeNext(names, input, most, k);
    MomentsStep(names, input, most, k);
  }

  lemma {:induction false} MomentsStep(names: seq<U.Bytes>, input: seq<seq<Cell>>, most: nat, k: nat)
    requires k < |input|
    ensures Moments(names, input, most, k + 1) ==
              Moments(names, input, most, k)
              + RowMoments(Retained(names, CapacityFor(k + 1, most), RowsOf(input[..k])), ChargeWithPlace(names, input, most, k + 1), |names|, input[k])
  {
    hide RowMoments, Retained, CapacityFor, ChargeWithPlace, RowsOf;
  }

  /** At every moment at least as much has been charged as is retained. */
  lemma {:induction false} MomentsCovered(names: seq<U.Bytes>, input: seq<seq<Cell>>, most: nat, k: nat)
    requires k <= |input|
    ensures forall i | 0 <= i < |Moments(names, input, most, k)| ::
              Moments(names, input, most, k)[i].retained <= Moments(names, input, most, k)[i].charged
    ensures Retained(names, CapacityFor(k, most), RowsOf(input[..k])) <= Charge(names, input, most, k)
  {
    hide RowMoments, Lengths, ValuesOf, TextBytes;
    if k == 0 {
      assert input[..0] == [];
    } else {
      MomentsCovered(names, input, most, k - 1);
      RowsNext(input, k - 1);
      RowAdded(RowsOf(input[..k - 1]), ValuesOf(input[k - 1]), |names|);
      var held := Retained(names, CapacityFor(k, most), RowsOf(input[..k - 1]));
      var charged := ChargeWithPlace(names, input, most, k);
      assert held + |names| * VALUE_SIZE <= charged;
      RowCovered(held, charged, |names|, input[k - 1]);
    }
  }

  lemma {:induction false} RowCovered(held: nat, charged: nat, width: nat, cells: seq<Cell>)
    requires held + width * VALUE_SIZE <= charged
    ensures forall i | 0 <= i < |RowMoments(held, charged, width, cells)| ::
              RowMoments(held, charged, width, cells)[i].retained <= RowMoments(held, charged, width, cells)[i].charged
  {
    CellsCovered(held + width * VALUE_SIZE, charged, cells, |cells|);
  }

  lemma {:induction false} CellsCovered(held: nat, charged: nat, cells: seq<Cell>, j: nat)
    requires held <= charged && j <= |cells|
    ensures forall i | 0 <= i < j :: CellMoments(held, charged, cells, j)[i].retained <= CellMoments(held, charged, cells, j)[i].charged
  {
    if j > 0 {
      CellsCovered(held, charged, cells, j - 1);
    }
  }

  lemma {:induction false} WithinCompletion(lease: JobLease)
    requires lease.Ready()
    ensures lease.domain.results.total.bytes <= lease.domain.policy.completionBytes
  {
    lease.domain.results.WithinLimits(Host);
  }

  lemma {:induction false} NothingYet(names: seq<U.Bytes>, input: seq<seq<Cell>>, most: nat)
    ensures RowsOf(input[..0]) == [] && RowBytes([], |names|) == 0
    ensures CapacityFor(0, most) == 0 && Charge(names, input, most, 0) == HeaderSize(names)
    ensures Moments(names, input, most, 0) == [Moment(Retained(names, 0, []), HeaderSize(names))]
  {
  }

  lemma {:induction false} ChargeNext(names: seq<U.Bytes>, input: seq<seq<Cell>>, most: nat, k: nat)
    requires k < |input|
    ensures var capacity := CapacityFor(k, most);
            && CapacityFor(k + 1, most) == NextCapacity(k, capacity, most)
            && Charge(names, input, most, k + 1) ==
                 Charge(names, input, most, k) + RowSize(names)
                 + SaturatingSub(NextCapacity(k, capacity, most), capacity) * VEC_SIZE + TextBytes(ValuesOf(input[k]))
    ensures Charge(names, input, most, k + 1) <= Charge(names, input, most, |input|)
    ensures RowSize(names) == 32 + |names| * 32 + Lengths(names)
  {
    ChargeGrows(names, input, most, k + 1, |input|);
  }

  lemma {:induction false} RowsNext(input: seq<seq<Cell>>, k: nat)
    requires k < |input|
    ensures RowsOf(input[..k + 1]) == RowsOf(input[..k]) + [ValuesOf(input[k])]
  {
    assert input[..k + 1][..k] == input[..k];
  }

  lemma {:induction false} RowAdded(rows: seq<seq<DbValue>>, row: seq<DbValue>, ncol: nat)
    ensures RowBytes(rows + [row], ncol) == RowBytes(rows, ncol) + ncol * VALUE_SIZE + TextBytes(row)
  {
  }

  // ---- in plain terms ----

  /** What each cell becomes: a blob is not handed out, and a text is the lossy conversion of its bytes. */
  lemma {:induction false} ValuesExactly(cells: seq<Cell>, i: nat)
    requires i < |cells|
    ensures ValuesOf(cells)[i] ==
            match cells[i]
            case NullCell => Null
            case IntCell(n) => Int(n)
            case RealCell(x) => Real(x)
            case TextCell(t) => Text(U.Lossy(t))
            case BlobCell(_) => Null
  {
    if i < |cells| - 1 {
      ValuesExactly(cells[..|cells| - 1], i);
    }
  }

  lemma {:induction false} RowsExactly(rows: seq<seq<Cell>>, i: nat)
    requires i < |rows|
    ensures RowsOf(rows)[i] == ValuesOf(rows[i])
  {
    hide ValuesOf;
    if i < |rows| - 1 {
      RowsExactly(rows[..|rows| - 1], i);
    }
  }

  function Power(e: nat): nat {
    if e == 0 then 1 else 2 * Power(e - 1)
  }

  /** Growth is geometric: the capacity for `k` rows is the least power of two that holds them, or the row limit if that is less. */
  lemma {:induction false} CapacityIsPower(k: nat, most: nat, e: nat)
    requires 1 <= k <= most && k <= Power(e) < 2 * k
    ensures CapacityFor(k, most) == if Power(e) < most then Power(e) else most
  {
    if k > 1 {
      if Power(e) < 2 * (k - 1) {
        CapacityIsPower(k - 1, most, e);
      } else {
        CapacityIsPower(k - 1, most, e - 1);
      }
    }
  }

  /** The bytes of text in a row and in the first `k` rows, as they are handed out. */
  ghost function RowText(cells: seq<Cell>): nat {
    if cells == [] then 0 else
      RowText(cells[..|cells| - 1]) + match cells[|cells| - 1]
                                      case TextCell(t) => |U.Lossy(t)|
                                      case _ => 0
  }

  ghost function AllText(input: seq<seq<Cell>>, k: nat): nat
    requires k <= |input|
  {
    if k == 0 then 0 else AllText(input, k - 1) + RowText(input[k - 1])
  }

  lemma {:induction false} RowTextIs(cells: seq<Cell>)
    ensures TextBytes(ValuesOf(cells)) == RowText(cells)
  {
    if cells != [] {
      var n := |cells| - 1;
      RowTextIs(cells[..n]);
      assert ValuesOf(cells)[..n] == ValuesOf(cells[..n]);
    }
  }

  /** The whole charge: 32 bytes and the name for each column, the same and 32 more for each row, 24 for each place of the outer
      vector, and every byte of text. */
  lemma {:induction false} ChargeExactly(names: seq<U.Bytes>, input: seq<seq<Cell>>, most: nat, k: nat)
    requires k <= |input| && k <= most
    ensures Charge(names, input, most, k)
            == (32 * |names| + Lengths(names)) + k * (32 + 32 * |names| + Lengths(names)) + 24 * CapacityFor(k, most) + AllText(input, k)
  {
    hide Lengths, RowText, ValuesOf, TextBytes;
    if k > 0 {
      ChargeExactly(names, input, most, k - 1);
      RowTextIs(input[k - 1]);
      CapacityBounds(k - 1, most);
      Times(k, 32 + 32 * |names| + Lengths(names));
    }
  }

  lemma {:induction false} Times(k: nat, x: nat)
    requires k > 0
    ensures k * x == (k - 1) * x + x
  {
  }

  ghost function TextOf(rows: seq<seq<DbValue>>): nat {
    if rows == [] then 0 else TextOf(rows[..|rows| - 1]) + TextBytes(rows[|rows| - 1])
  }

  /** What is retained: 24 bytes and the name for each column, 24 for each place of the outer vector, 24 for each value, and every byte
      of text. */
  lemma {:induction false} RetainedExactly(columns: seq<U.Bytes>, capacity: nat, rows: seq<seq<DbValue>>)
    ensures Retained(columns, capacity, rows)
            == (24 * |columns| + Lengths(columns)) + 24 * capacity + |rows| * (24 * |columns|) + TextOf(rows)
  {
    hide Lengths;
    RowBytesIs(rows, |columns|);
  }

  lemma {:induction false} RowBytesIs(rows: seq<seq<DbValue>>, ncol: nat)
    ensures RowBytes(rows, ncol) == |rows| * (24 * ncol) + TextOf(rows)
  {
    hide TextBytes;
    if rows != [] {
      RowBytesIs(rows[..|rows| - 1], ncol);
      Times(|rows|, 24 * ncol);
    }
  }
}
