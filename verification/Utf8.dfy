/** UTF-8 (section 4 of RFC 3629) and its lossy decoding with one replacement character per maximal subpart
    (section 3.9 of the Unicode Standard). */
module Utf8 {
  newtype Byte = b: int | 0 <= b < 256

  type Bytes = seq<Byte>

  datatype ErrorLen = Incomplete | Bad(len: nat)

  datatype Checked = Valid | Invalid(validUpTo: nat, errorLen: ErrorLen)

  /** U+FFFD. */
  const REPLACEMENT: Bytes := [0xEF, 0xBF, 0xBD]

  const USIZE_MAX: nat := 0xFFFF_FFFF_FFFF_FFFF

  predicate Tail(b: Byte) {
    0x80 <= b < 0xC0
  }

  predicate Lead(b: Byte) {
    0xC2 <= b <= 0xF4
  }

  /** Which second bytes may follow a lead byte. */
  predicate Second(lead: Byte, b: Byte) {
    if lead == 0xE0 then 0xA0 <= b < 0xC0
    else if lead == 0xED then 0x80 <= b < 0xA0
    else if lead == 0xF0 then 0x90 <= b < 0xC0
    else if lead == 0xF4 then 0x80 <= b < 0x90
    else Lead(lead) && Tail(b)
  }

  /** The length of the well-formed sequence at the front, or 0. */
  function SeqLen(b: Bytes): (k: nat)
    ensures k <= 4 && k <= |b|
  {
    if b == [] then 0
    else if b[0] < 0x80 then 1
    else if |b| < 2 || !Second(b[0], b[1]) then 0
    else if b[0] < 0xE0 then 2
    else if |b| < 3 || !Tail(b[2]) then 0
    else if b[0] < 0xF0 then 3
    else if |b| < 4 || !Tail(b[3]) then 0
    else 4
  }

  /** The length of the maximal subpart of an ill-formed sequence at the front. */
  function BadLen(b: Bytes): (k: nat)
    requires b != [] && SeqLen(b) == 0
    ensures 1 <= k <= 3 && k <= |b|
  {
    if |b| < 2 || !Second(b[0], b[1]) then 1
    else if |b| < 3 || !Tail(b[2]) then 2
    else 3
  }

  ghost predicate WellFormed(b: Bytes) {
    b == [] || (SeqLen(b) > 0 && WellFormed(b[SeqLen(b)..]))
  }

  /** The lossy decoding. */
  ghost function Lossy(b: Bytes): Bytes {
    if b == [] then []
    else if SeqLen(b) > 0 then b[..SeqLen(b)] + Lossy(b[SeqLen(b)..])
    else REPLACEMENT + Lossy(b[BadLen(b)..])
  }

  // ---- what the standard library answers ----

  function ValidUpTo(b: Bytes): (n: nat)
    ensures n <= |b|
  {
    if SeqLen(b) == 0 then 0 else SeqLen(b) + ValidUpTo(b[SeqLen(b)..])
  }

  lemma {:induction false} StopsAtBad(b: Bytes)
    ensures SeqLen(b[ValidUpTo(b)..]) == 0
  {
    if SeqLen(b) != 0 {
      StopsAtBad(b[SeqLen(b)..]);
      assert b[SeqLen(b)..][ValidUpTo(b[SeqLen(b)..])..] == b[ValidUpTo(b)..];
    }
  }

  /** `str::from_utf8`: where the first error is, and how long, unless the input merely ends inside a sequence. */
  function FromUtf8(b: Bytes): (r: Checked) {
    var n := ValidUpTo(b);
    StopsAtBad(b);
    if n == |b| then Valid
    else
      var bad := BadLen(b[n..]);
      Invalid(n, if n + bad == |b| && Lead(b[n]) then Incomplete else Bad(bad))
  }

  /** The next piece of `utf8_chunks`: how much is valid, and the maximal subpart after it. */
  function ChunkAt(b: Bytes): (r: (nat, nat))
    ensures r.0 + r.1 <= |b| && (b != [] ==> r.0 + r.1 > 0)
  {
    var n := ValidUpTo(b);
    StopsAtBad(b);
    if n == |b| then (n, 0) else (n, BadLen(b[n..]))
  }

  function SaturatingAdd(a: nat, b: nat): nat {
    if a + b > USIZE_MAX then USIZE_MAX else a + b
  }

  // ---- the two conversions ----

  /** What follows the valid part: nothing, or a replacement and the rest. */
  ghost function AfterValid(b: Bytes, n: nat): Bytes
    requires n <= |b| && SeqLen(b[n..]) == 0
  {
    if n == |b| then [] else REPLACEMENT + Lossy(b[n + BadLen(b[n..])..])
  }

  lemma {:induction false} LossySplit(b: Bytes)
    ensures SeqLen(b[ValidUpTo(b)..]) == 0
    ensures Lossy(b) == b[..ValidUpTo(b)] + AfterValid(b, ValidUpTo(b))
  {
    hide SeqLen, BadLen, Lossy, AfterValid;
    var n := ValidUpTo(b);
    StopsAtBad(b);
    if SeqLen(b) == 0 {
      LossyHere(b);
    } else {
      var k := SeqLen(b);
      var rest := b[k..];
      LossySplit(rest);
      AfterShift(b, k, n);
      LossyOn(b);
      Regrouped(b, k, n, AfterValid(b, n));
    }
  }

  lemma {:induction false} Regrouped(b: Bytes, k: nat, n: nat, after: Bytes)
    requires k <= n <= |b|
    ensures b[..k] + (b[k..][..n - k] + after) == b[..n] + after
  {
  }

  lemma {:induction false} LossyHere(b: Bytes)
    requires SeqLen(b) == 0
    ensures b[0..] == b && Lossy(b) == b[..0] + AfterValid(b, 0)
  {
  }

  lemma {:induction false} LossyOn(b: Bytes)
    requires SeqLen(b) > 0
    ensures Lossy(b) == b[..SeqLen(b)] + Lossy(b[SeqLen(b)..])
  {
  }

  lemma {:induction false} AfterShift(b: Bytes, k: nat, n: nat)
    requires k <= n <= |b| && SeqLen(b[n..]) == 0
    ensures b[k..][n - k..] == b[n..]
    ensures AfterValid(b[k..], n - k) == AfterValid(b, n)
  {
    hide SeqLen, BadLen, Lossy;
    assert b[k..][n - k..] == b[n..];
    if n != |b| {
      var bad := BadLen(b[n..]);
      assert b[k..][n - k + bad..] == b[n + bad..];
    }
  }

  lemma {:induction false} LossyEmpty()
    ensures Lossy([]) == []
  {
  }

  /** The exact length of the lossy decoding, without building it. */
  method Utf8LossyLen(bytes: Bytes) returns (n: nat)
    ensures n == SaturatingAdd(|Lossy(bytes)|, 0)
    ensures 3 * |bytes| <= USIZE_MAX ==> n == |Lossy(bytes)|
  {
    LossyIsWellFormed(bytes);
    hide SeqLen, BadLen, Lossy, ValidUpTo;
    n := 0;
    var rest := bytes;
    while true
      invariant SaturatingAdd(n, |Lossy(rest)|) == SaturatingAdd(|Lossy(bytes)|, 0)
      decreases |rest|
    {
      LossySplit(rest);
      var checked := FromUtf8(rest);
      if checked.Valid? {
        return SaturatingAdd(n, |rest|);
      }
      n := SaturatingAdd(SaturatingAdd(n, checked.validUpTo), 3);
      if checked.errorLen.Incomplete? {
        LossyEmpty();
        assert rest[checked.validUpTo + BadLen(rest[checked.validUpTo..])..] == [];
        return;
      }
      rest := rest[checked.validUpTo + checked.errorLen.len..];
    }
  }

  /** The lossy decoding, chunk by chunk. */
  method Utf8LossyOwned(bytes: Bytes) returns (output: Bytes)
    ensures output == Lossy(bytes)
  {
    hide SeqLen, BadLen, Lossy, ValidUpTo;
    LossyEmpty();
    output := [];
    var rest := bytes;
    while rest != []
      invariant output + Lossy(rest) == Lossy(bytes)
      decreases |rest|
    {
      LossySplit(rest);
      var (valid, invalid) := ChunkAt(rest);
      output := output + rest[..valid];
      if invalid != 0 {
        output := output + REPLACEMENT;
      }
      rest := rest[valid + invalid..];
    }
  }

  // ---- what the lossy decoding is ----

  lemma {:induction false} SeqLenOfPrefix(b: Bytes, c: Bytes)
    requires SeqLen(b) > 0
    ensures SeqLen(b + c) == SeqLen(b) && SeqLen(b[..SeqLen(b)]) == SeqLen(b)
  {
  }

  lemma {:induction false} WellFormedOn(b: Bytes, k: nat)
    requires SeqLen(b) == k > 0 && WellFormed(b[k..])
    ensures WellFormed(b)
  {
  }

  lemma {:induction false} WellFormedAppend(a: Bytes, b: Bytes)
    requires WellFormed(a) && WellFormed(b)
    ensures WellFormed(a + b)
  {
    hide SeqLen;
    if a == [] {
      assert a + b == b;
    } else {
      var k := SeqLen(a);
      SeqLenOfPrefix(a, b);
      WellFormedAppend(a[k..], b);
      assert (a + b)[k..] == a[k..] + b;
      WellFormedOn(a + b, k);
    }
  }

  lemma {:induction false} OneSequence(b: Bytes)
    requires b != [] && SeqLen(b) == |b|
    ensures WellFormed(b)
  {
  }

  /** The output is well-formed and at most three times as long as the input. */
  lemma {:induction false} LossyIsWellFormed(b: Bytes)
    ensures WellFormed(Lossy(b)) && |Lossy(b)| <= 3 * |b|
  {
    if b == [] {
    } else if SeqLen(b) > 0 {
      var k := SeqLen(b);
      LossyIsWellFormed(b[k..]);
      SeqLenOfPrefix(b, []);
      OneSequence(b[..k]);
      WellFormedAppend(b[..k], Lossy(b[k..]));
    } else {
      LossyIsWellFormed(b[BadLen(b)..]);
      OneSequence(REPLACEMENT);
      WellFormedAppend(REPLACEMENT, Lossy(b[BadLen(b)..]));
    }
  }

  /** Only well-formed input comes through unchanged, and `from_utf8` accepts exactly that. */
  lemma {:induction false} LossyKeepsWellFormed(b: Bytes)
    ensures WellFormed(b) <==> ValidUpTo(b) == |b|
    ensures WellFormed(b) ==> Lossy(b) == b
    ensures WellFormed(b) <==> FromUtf8(b).Valid?
  {
    if b != [] && SeqLen(b) > 0 {
      LossyKeepsWellFormed(b[SeqLen(b)..]);
      assert b == b[..SeqLen(b)] + b[SeqLen(b)..];
    }
  }

  /** Some continuation makes `p` the start of one well-formed sequence. */
  ghost predicate Continues(p: Bytes) {
    exists c: Bytes :: SeqLen(p + c) == |p + c| > 0
  }

  lemma {:induction false} ContinuesBy(p: Bytes, c: Bytes)
    requires SeqLen(p + c) == |p + c| > 0
    ensures Continues(p)
  {
  }

  /** What is replaced is a maximal subpart: one byte, or the longest piece that could have gone on to be well-formed. */
  lemma {:induction false} BadIsMaximal(b: Bytes, longer: nat)
    requires b != [] && SeqLen(b) == 0 && BadLen(b) < longer <= |b|
    ensures BadLen(b) == 1 || Continues(b[..BadLen(b)])
    ensures !Continues(b[..longer])
  {
    var k := BadLen(b);
    if k == 2 {
      if b[0] < 0xF0 {
        ContinuesBy(b[..2], [0x80]);
      } else {
        ContinuesBy(b[..2], [0x80, 0x80]);
      }
    } else if k == 3 {
      ContinuesBy(b[..3], [0x80]);
    }
    forall c: Bytes ensures SeqLen(b[..longer] + c) != |b[..longer] + c| {
      var w := b[..longer] + c;
      assert w[0] == b[0] && w[1] == b[1];
      if k >= 2 {
        assert w[2] == b[2];
      }
      if k == 3 {
        assert w[3] == b[3];
      }
    }
  }

  // ---- scalar values ----

  predicate Scalar(c: int) {
    0 <= c < 0xD800 || 0xE000 <= c < 0x11_0000
  }

  function Encode(c: int): Bytes
    requires Scalar(c)
  {
    var low, c1 := c % 0x40, c / 0x40;
    var c2 := c1 / 0x40;
    if c < 0x80 then [c as Byte]
    else if c < 0x800 then [(0xC0 + c1) as Byte, (0x80 + low) as Byte]
    else if c < 0x1_0000 then [(0xE0 + c2) as Byte, (0x80 + c1 % 0x40) as Byte, (0x80 + low) as Byte]
    else [(0xF0 + c2 / 0x40) as Byte, (0x80 + c2 % 0x40) as Byte, (0x80 + c1 % 0x40) as Byte, (0x80 + low) as Byte]
  }

  ghost function Decode(b: Bytes): int
    requires SeqLen(b) > 0
  {
    var b0 := b[0] as int;
    if SeqLen(b) == 1 then b0 else
      var b1 := b[1] as int;
      if SeqLen(b) == 2 then Join(b0 - 0xC0, b1 - 0x80) else
        var b2 := b[2] as int;
        if SeqLen(b) == 3 then Join(Join(b0 - 0xE0, b1 - 0x80), b2 - 0x80) else
          var b3 := b[3] as int;
          Join(Join(Join(b0 - 0xF0, b1 - 0x80), b2 - 0x80), b3 - 0x80)
  }

  /** Six more bits. */
  ghost function Join(high: int, low: int): int {
    high * 0x40 + low
  }

  lemma {:induction false} JoinSplit(high: int, low: int)
    requires 0 <= low < 0x40
    ensures Join(high, low) / 0x40 == high && Join(high, low) % 0x40 == low
  {
  }

  lemma {:induction false} SplitJoin(c: int)
    ensures Join(c / 0x40, c % 0x40) == c
  {
  }

  /** A well-formed sequence is the encoding of a scalar value. */
  lemma {:induction false} SequenceIsScalar(b: Bytes)
    requires SeqLen(b) > 0
    ensures Scalar(Decode(b)) && Encode(Decode(b)) == b[..SeqLen(b)]
  {
    var c, k := Decode(b), SeqLen(b);
    if k == 2 {
      JoinSplit(b[0] as int - 0xC0, b[1] as int - 0x80);
      assert b[..2] == [b[0], b[1]];
    } else if k == 3 {
      var high := Join(b[0] as int - 0xE0, b[1] as int - 0x80);
      JoinSplit(b[0] as int - 0xE0, b[1] as int - 0x80);
      JoinSplit(high, b[2] as int - 0x80);
      assert b[..3] == [b[0], b[1], b[2]];
    } else if k == 4 {
      var top := Join(b[0] as int - 0xF0, b[1] as int - 0x80);
      var high := Join(top, b[2] as int - 0x80);
      JoinSplit(b[0] as int - 0xF0, b[1] as int - 0x80);
      JoinSplit(top, b[2] as int - 0x80);
      JoinSplit(high, b[3] as int - 0x80);
      assert b[..4] == [b[0], b[1], b[2], b[3]];
    } else {
      assert b[..1] == [b[0]];
    }
  }

  /** Every scalar value has one, and it decodes to the value. */
  lemma {:induction false} ScalarIsSequence(c: int, rest: Bytes)
    requires Scalar(c)
    ensures SeqLen(Encode(c) + rest) == |Encode(c)| > 0 && Decode(Encode(c) + rest) == c
  {
    SplitJoin(c);
    SplitJoin(c / 0x40);
    SplitJoin(c / 0x40 / 0x40);
    hide Join;
  }

  // ---- cutting a diagnostic ----

  predicate CharBoundary(s: Bytes, n: nat)
    requires n <= |s|
  {
    n == 0 || n == |s| || !Tail(s[n])
  }

  lemma {:induction false} BoundaryIsWellFormed(s: Bytes, n: nat)
    requires WellFormed(s) && n <= |s|
    ensures CharBoundary(s, n) <==> WellFormed(s[..n])
    decreases |s|
  {
    if n == 0 || n == |s| {
      assert s[..|s|] == s;
    } else {
      var k := SeqLen(s);
      if n < k {
        assert SeqLen(s[..n]) == 0;
        assert Tail(s[n]);
      } else {
        BoundaryIsWellFormed(s[k..], n - k);
        SeqLenOfPrefix(s, []);
        assert s[..k] == s[..n][..k];
        assert s[..n][k..] == s[k..][..n - k];
        if n == k {
          assert s[k..][..0] == [];
          NotTailFirst(s[k..]);
        }
        SeqLenCut(s, n);
      }
    }
  }

  lemma {:induction false} NotTailFirst(s: Bytes)
    requires SeqLen(s) > 0
    ensures !Tail(s[0])
  {
  }

  lemma {:induction false} SeqLenCut(s: Bytes, n: nat)
    requires 0 < SeqLen(s) <= n <= |s|
    ensures SeqLen(s[..n]) == SeqLen(s)
  {
  }

  /** A well-formed text is cut to the longest well-formed prefix within the cap. */
  method DiagnosticLimit(s: Bytes, cap: nat) returns (r: Bytes)
    requires WellFormed(s)
    ensures WellFormed(r) && r <= s && (|s| <= cap ==> r == s)
    ensures |s| > cap ==> |r| <= cap && forall n | |r| < n <= cap :: !WellFormed(s[..n])
  {
    if |s| <= cap {
      return s;
    }
    var n: nat := cap;
    BoundaryIsWellFormed(s, n);
    while !CharBoundary(s, n)
      invariant 0 <= n <= cap && forall m | n < m <= cap :: !WellFormed(s[..m])
      invariant CharBoundary(s, n) <==> WellFormed(s[..n])
      decreases n
    {
      n := n - 1;
      BoundaryIsWellFormed(s, n);
    }
    r := s[..n];
  }
}
