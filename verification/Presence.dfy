/** Which fields of a record are present, as the copier encodes it: a bit mask for up to thirty fields,
    a string of zeros and ones beyond. */
module Presence {
  const BIT_FIELDS: nat := 30

  datatype Mask = Bits(bits: bv32) | Digits(digits: string)

  /** `1 << i` for the shifts the copier makes. */
  function Bit(i: nat): bv32 {
    if i == 0 then 1 else Bit(i - 1) << 1
  }

  function EmptyMask(fields: nat): Mask {
    if fields > BIT_FIELDS then Digits("") else Bits(0)
  }

  /** The mask after field `i`, with `i` fields already seen. */
  function WithField(mask: Mask, i: nat, present: bool): Mask {
    match mask
    case Digits(ds) => Digits(ds + if present then "1" else "0")
    case Bits(bits) => if present then Bits(Join(bits, Bit(i))) else mask
  }

  /** What the object builder tests before it spreads field `i` in. */
  predicate Has(mask: Mask, i: nat) {
    match mask
    case Digits(ds) => i < |ds| && ds[i] == '1'
    case Bits(bits) => Meets(bits, Bit(i))
  }

  lemma {:induction false} NextBit(i: nat)
    ensures Bit(i + 1) == Bit(i) << 1
  {
  }

  lemma {:induction false} FourShifts(b: bv32)
    ensures b << 1 << 1 << 1 << 1 == b << 4
  {
  }

  lemma {:induction false} FourMore(i: nat)
    ensures Bit(i + 4) == Bit(i) << 4
  {
    hide Bit;
    NextBit(i);
    NextBit(i + 1);
    NextBit(i + 2);
    NextBit(i + 3);
    FourShifts(Bit(i));
  }

  lemma {:induction false} LastBit()
    ensures Bit(29) == 0x2000_0000
  {
    assert Bit(1) == 2 by {
      assert Bit(0) == 1;
    }
    hide Bit;
    FourMore(1);
    FourMore(5);
    FourMore(9);
    FourMore(13);
    FourMore(17);
    FourMore(21);
    FourMore(25);
  }

  lemma {:induction false} BitNonzero(i: nat)
    requires i < BIT_FIELDS
    ensures Bit(i) != 0
    decreases BIT_FIELDS - i
  {
    hide Bit;
    if i == 29 {
      LastBit();
    } else {
      BitNonzero(i + 1);
      NextBit(i);
    }
  }

  lemma {:induction false} ShiftMeet(a: bv32, b: bv32)
    ensures (a << 1) & (b << 1) == (a & b) << 1
  {
  }

  lemma {:induction false} BitsDisjoint(i: nat, j: nat)
    requires i < j
    ensures Bit(i) & Bit(j) == 0 && Bit(j) & Bit(i) == 0
  {
    if i != 0 {
      BitsDisjoint(i - 1, j - 1);
      ShiftMeet(Bit(i - 1), Bit(j - 1));
      ShiftMeet(Bit(j - 1), Bit(i - 1));
    }
  }

  function Meet(a: bv32, b: bv32): bv32 {
    a & b
  }

  predicate Meets(a: bv32, b: bv32) {
    Meet(a, b) != 0
  }

  function Join(a: bv32, b: bv32): bv32 {
    a | b
  }

  lemma {:induction false} JoinApart(m: bv32, a: bv32, b: bv32)
    requires !Meets(a, b)
    ensures Meets(Join(m, a), b) == Meets(m, b)
  {
  }

  lemma {:induction false} JoinSelf(m: bv32, b: bv32)
    requires Meets(b, b)
    ensures Meets(Join(m, b), b)
  {
  }

  /** The mask built field by field from a list of flags. */
  ghost function MaskOf(fields: nat, present: seq<bool>): Mask {
    if present == [] then EmptyMask(fields)
    else WithField(MaskOf(fields, present[..|present| - 1]), |present| - 1, present[|present| - 1])
  }

  lemma {:induction false} MaskShape(fields: nat, present: seq<bool>)
    ensures MaskOf(fields, present).Digits? <==> fields > BIT_FIELDS
    ensures fields > BIT_FIELDS ==> |MaskOf(fields, present).digits| == |present|
  {
    if present != [] {
      MaskShape(fields, present[..|present| - 1]);
    }
  }

  lemma {:induction false} SelfMeets(b: bv32)
    requires b != 0
    ensures Meets(b, b)
  {
  }

  lemma {:induction false} BitsMeet(n: nat, i: nat)
    requires n < BIT_FIELDS && i < BIT_FIELDS
    ensures Meets(Bit(n), Bit(i)) <==> i == n
  {
    hide Bit;
    if i < n {
      BitsDisjoint(i, n);
    } else if n < i {
      BitsDisjoint(n, i);
    } else {
      BitNonzero(i);
      SelfMeets(Bit(i));
    }
  }

  lemma {:induction false} BitRecorded(bits: bv32, n: nat, i: nat)
    requires n < BIT_FIELDS && i < BIT_FIELDS
    ensures Meets(Join(bits, Bit(n)), Bit(i)) <==> i == n || Meets(bits, Bit(i))
  {
    hide Bit, Meets, Join;
    BitsMeet(n, i);
    if i == n {
      JoinSelf(bits, Bit(i));
    } else {
      JoinApart(bits, Bit(n), Bit(i));
    }
  }

  /** Recording a field sets or clears its own answer and no other. */
  lemma {:induction false} FieldRecorded(mask: Mask, n: nat, present: bool, i: nat)
    requires mask.Bits? ==> n < BIT_FIELDS && i < BIT_FIELDS && !Has(mask, n)
    requires mask.Digits? ==> |mask.digits| == n
    ensures Has(WithField(mask, n, present), i) <==> if i == n then present else Has(mask, i)
  {
    hide Bit, Meets, Join;
    if mask.Bits? {
      BitRecorded(mask.bits, n, i);
    }
  }

  /** Either encoding answers for every field of the record exactly what was recorded. */
  lemma {:induction false} MaskAgrees(fields: nat, present: seq<bool>, i: nat)
    requires |present| <= fields && i < fields
    ensures Has(MaskOf(fields, present), i) <==> i < |present| && present[i]
    decreases |present|
  {
    MaskShape(fields, present);
    if present == [] {
      EmptyHasNone(fields, i);
    } else {
      var n := |present| - 1;
      var before := present[..n];
      MaskShape(fields, before);
      MaskAgrees(fields, before, i);
      MaskAgrees(fields, before, n);
      hide Has, WithField, EmptyMask;
      FieldRecorded(MaskOf(fields, before), n, present[n], i);
    }
  }

  lemma {:induction false} EmptyHasNone(fields: nat, i: nat)
    ensures !Has(EmptyMask(fields), i)
  {
  }
}
