/** SQL values and the order that sorts index keys.

    The code compares values case by case; the claim is that this is one total preorder, also
    across integers and reals beyond 2^53, where converting the integer to a double would lose
    low bits. It is proved by giving every value a key in an order that is total by
    construction and showing that each comparison agrees with it. */
module Values {
  import opened Bytes

  // ----- Doubles

  function Pow2(e: int): real
    ensures Pow2(e) > 0.0
    decreases if e < 0 then -e else e
  {
    if e == 0 then 1.0
    else if e > 0 then 2.0 * Pow2(e - 1)
    else Pow2(e + 1) / 2.0
  }

  const TWO_53: int := 0x20_0000_0000_0000
  const TWO_63: int := 0x8000_0000_0000_0000

  function Scale(m: int, e: int): real {
    m as real * Pow2(e)
  }

  /** A double: `mantissa * 2^exponent` with a 53-bit mantissa, an infinity, or NaN. */
  datatype Double = Finite(mantissa: int, exponent: int) | Infinite(negative: bool) | NaN {
    ghost predicate Valid() {
      Finite? ==> -TWO_53 < mantissa < TWO_53 && -1074 <= exponent <= 971
    }

    function Value(): real
      requires Finite?
    {
      Scale(mantissa, exponent)
    }
  }

  ghost predicate I64(i: int) {
    -TWO_63 <= i < TWO_63
  }

  function Truncate(x: real): int {
    if x >= 0.0 then x.Floor else -((-x).Floor)
  }

  /** How many low bits do not fit a 53-bit mantissa. */
  function ExtraBits(a: nat): nat {
    if a < TWO_53 then 0 else 1 + ExtraBits(a / 2)
  }

  // Shifts by `k` bits, and whether the bits shifted out are all zero.
  function ShiftRight(a: nat, k: nat): nat {
    if k == 0 then a else ShiftRight(a / 2, k - 1)
  }

  function ShiftLeft(a: nat, k: nat): nat {
    if k == 0 then a else 2 * ShiftLeft(a, k - 1)
  }

  predicate LowBitsZero(a: nat, k: nat) {
    k == 0 || (a % 2 == 0 && LowBitsZero(a / 2, k - 1))
  }

  /** Rounding to 53 bits, ties to even. */
  function RoundMagnitude(a: nat): nat {
    var k := ExtraBits(a);
    if k == 0 then a
    else
      var q, half, exact := ShiftRight(a, k), ShiftRight(a, k - 1) % 2 == 1, LowBitsZero(a, k - 1);
      ShiftLeft(if half && (!exact || q % 2 == 1) then q + 1 else q, k)
  }

  /** Conversion of an integer to the nearest double, as the double's value. */
  function RoundToDouble(i: int): real {
    if i < 0 then -(RoundMagnitude(-i) as real) else RoundMagnitude(i) as real
  }

  function CmpReal(x: real, y: real): Ordering {
    if x < y then Less else if x == y then Equal else Greater
  }

  /** Compare an integer with a double as the code does: by range, then by the truncated
      integer part, then by the double nearest to the integer. */
  function IntFloatCmp(i: int, r: Double): Ordering {
    match r
    case NaN => Equal
    case Infinite(neg) => if neg then Greater else Less
    case Finite(_, _) =>
      if r.Value() < -(TWO_63 as real) then Greater
      else if r.Value() >= TWO_63 as real then Less
      else
        var y := Truncate(r.Value());
        if i != y then CmpInt(i, y) else CmpReal(RoundToDouble(i), r.Value())
  }

  lemma {:induction false} NegativePow2(e: int)
    requires e < 0
    ensures Pow2(e) <= 0.5
    decreases -e
  {
    if e < -1 {
      NegativePow2(e + 1);
    }
  }

  // A 53-bit mantissa shifted left by `e` has at most `e` bits too many.
  lemma {:induction false} ShiftedExtraBits(n: nat, e: nat)
    requires n < TWO_53
    ensures ExtraBits(ShiftLeft(n, e)) <= e
  {
    if ShiftLeft(n, e) >= TWO_53 {
      ShiftedExtraBits(n, e - 1);
    }
  }

  lemma {:induction false} ShiftedLowBits(n: nat, e: nat, k: nat)
    requires k <= e
    ensures LowBitsZero(ShiftLeft(n, e), k)
  {
    if k > 0 {
      ShiftedLowBits(n, e - 1, k - 1);
    }
  }

  // Shifting zero bits out and back in changes nothing, and the bit shifted out last is zero.
  lemma {:induction false} ThereAndBack(a: nat, k: nat)
    requires LowBitsZero(a, k)
    ensures ShiftLeft(ShiftRight(a, k), k) == a
    ensures k > 0 ==> ShiftRight(a, k - 1) % 2 == 0
  {
    if k > 0 {
      ThereAndBack(a / 2, k - 1);
      if k > 1 {
        assert ShiftRight(a, k - 1) == ShiftRight(a / 2, k - 2);
      }
    }
  }

  /** An integer that is a double converts to itself. */
  lemma {:induction false} RepresentableRoundsToItself(n: nat, e: nat)
    requires n < TWO_53
    ensures RoundMagnitude(ShiftLeft(n, e)) == ShiftLeft(n, e)
  {
    var a := ShiftLeft(n, e);
    ShiftedExtraBits(n, e);
    ShiftedLowBits(n, e, ExtraBits(a));
    ThereAndBack(a, ExtraBits(a));
  }

  lemma {:induction false} ShiftLeftIsPow2(n: nat, e: nat)
    ensures n as real * Pow2(e) == ShiftLeft(n, e) as real
  {
    if e > 0 {
      ShiftLeftIsPow2(n, e - 1);
      assert n as real * Pow2(e) == 2.0 * (n as real * Pow2(e - 1));
    }
  }

  lemma {:induction false} SmallRoundsToItself(i: int)
    requires -TWO_53 < i < TWO_53
    ensures RoundToDouble(i) == i as real
  {
  }

  // A double with a negative exponent is below 2^53 in magnitude.
  lemma {:induction false} FractionalIsSmall(m: int, e: int)
    requires -TWO_53 < m < TWO_53 && e < 0
    ensures -(TWO_53 as real) < Scale(m, e) < TWO_53 as real
  {
    NegativePow2(e);
    var p, x := Pow2(e), m as real;
    if m >= 0 {
      ScaledDown(x, p);
    } else {
      ScaledDown(-x, p);
      NegatedProduct(x, p);
    }
  }

  lemma {:induction false} ScaledDown(x: real, p: real)
    requires x >= 0.0 && 0.0 < p <= 1.0
    ensures 0.0 <= x * p <= x
  {
    NonNegativeProduct(x, p);
    NonNegativeProduct(x, 1.0 - p);
    assert x * (1.0 - p) == x - x * p;
  }

  lemma {:induction false} NonNegativeProduct(x: real, y: real)
    requires x >= 0.0 && y >= 0.0
    ensures x * y >= 0.0
  {
  }

  lemma {:induction false} NegatedProduct(x: real, p: real)
    ensures (-x) * p == -(x * p)
  {
  }

  lemma {:induction false} TruncateBounds(x: real)
    ensures x >= 0.0 ==> 0.0 <= Truncate(x) as real <= x < Truncate(x) as real + 1.0
    ensures x < 0.0 ==> Truncate(x) as real - 1.0 < x <= Truncate(x) as real <= 0.0
  {
  }

  // A double with an exponent of zero or more is an integer, and that integer converts to it.
  lemma {:induction false} WholeDouble(m: int, e: nat) returns (i: int)
    requires -TWO_53 < m < TWO_53
    ensures Scale(m, e) == i as real && RoundToDouble(i) == i as real
  {
    if m >= 0 {
      i := ShiftLeft(m, e);
      ShiftLeftIsPow2(m, e);
      RepresentableRoundsToItself(m, e);
    } else {
      var a: int := ShiftLeft(-m, e);
      i := -a;
      ShiftLeftIsPow2(-m, e);
      RepresentableRoundsToItself(-m, e);
      NegatedInt(m);
      NegatedProduct(m as real, Pow2(e));
      assert RoundToDouble(i) == -(RoundMagnitude(a) as real) || a == 0;
    }
  }

  lemma {:induction false} NegatedInt(m: int)
    ensures (-m) as real == -(m as real)
  {
  }

  lemma {:induction false} TruncateWhole(i: int)
    ensures Truncate(i as real) == i
  {
  }

  lemma {:induction false} SamePartExact(r: Double)
    requires r.Valid() && r.Finite?
    ensures var i := Truncate(r.Value()); RoundToDouble(i) == i as real
  {
    if r.exponent >= 0 {
      var n := WholeDouble(r.mantissa, r.exponent);
      TruncateWhole(n);
    } else {
      FractionalIsSmall(r.mantissa, r.exponent);
      TruncateBounds(r.Value());
      SmallRoundsToItself(Truncate(r.Value()));
    }
  }

  /** Mixed comparison is the exact mathematical comparison. */
  lemma {:induction false} IntFloatExact(i: int, r: Double)
    requires I64(i) && r.Valid() && r.Finite?
    ensures IntFloatCmp(i, r) == CmpReal(i as real, r.Value())
  {
    TruncateBounds(r.Value());
    SamePartExact(r);
  }

  // ----- Values

  datatype Value = Null | Integer(i: int) | Real(r: Double) | Text(text: bytes) | Blob(blob: bytes) {
    /** A value the engine stores: 64-bit integers, and never a NaN. */
    ghost predicate Valid() {
      match this
      case Integer(i) => I64(i)
      case Real(r) => r.Valid() && r != NaN
      case _ => true
    }
  }

  type StoredValue = v: Value | v.Valid() witness Null

  datatype Collation = Binary | NoCase | RTrim

  function ToLower(b: byte): byte {
    if 0x41 <= b <= 0x5A then b + 0x20 else b
  }

  function Lowered(s: bytes): bytes {
    seq(|s|, i requires 0 <= i < |s| => ToLower(s[i]))
  }

  function TrimEnd(s: bytes): bytes {
    if s != [] && s[|s| - 1] == 0x20 then TrimEnd(s[..|s| - 1]) else s
  }

  // Text is compared through its string view, which is empty for invalid UTF-8.
  function StrView(s: bytes): bytes {
    if ValidUtf8(s) then s else []
  }

  function CmpText(x: bytes, y: bytes, coll: Collation): Ordering {
    match coll
    case Binary => LexCmp(x, y)
    case NoCase => LexCmp(Lowered(x), Lowered(y))
    case RTrim => LexCmp(TrimEnd(x), TrimEnd(y))
  }

  function Class(v: Value): nat {
    match v
    case Null => 0
    case Integer(_) => 1
    case Real(_) => 1
    case Text(_) => 2
    case Blob(_) => 3
  }

  function CmpDouble(x: Double, y: Double): Ordering {
    if x == NaN || y == NaN then Equal
    else if x.Finite? && y.Finite? then CmpReal(x.Value(), y.Value())
    else if x == y then Equal
    else if x == Infinite(true) || y == Infinite(false) then Less
    else Greater
  }

  function CmpValues(a: Value, b: Value): Ordering {
    match (a, b)
    case (Null, Null) => Equal
    case (Integer(x), Integer(y)) => CmpInt(x, y)
    case (Real(x), Real(y)) => CmpDouble(x, y)
    case (Integer(i), Real(r)) => IntFloatCmp(i, r)
    case (Real(r), Integer(i)) => IntFloatCmp(i, r).Reverse()
    case (Text(x), Text(y)) => LexCmp(x, y)
    case (Blob(x), Blob(y)) => LexCmp(x, y)
    case _ => CmpInt(Class(a), Class(b))
  }

  function CmpValuesColl(a: Value, b: Value, coll: Collation): Ordering {
    if a.Text? && b.Text? then CmpText(StrView(a.text), StrView(b.text), coll) else CmpValues(a, b)
  }

  // ----- The order behind the comparisons

  /** Where a value stands: nulls, then numbers on the extended real line, then text under its
      collation, then blobs. */
  datatype Key = KNull | KMinusInf | KNum(x: real) | KPlusInf | KText(text: bytes) | KBlob(blob: bytes)

  function KeyRank(k: Key): nat {
    match k
    case KNull => 0
    case KMinusInf => 1
    case KNum(_) => 2
    case KPlusInf => 3
    case KText(_) => 4
    case KBlob(_) => 5
  }

  ghost function CmpKey(a: Key, b: Key): Ordering {
    match (a, b)
    case (KNum(x), KNum(y)) => CmpReal(x, y)
    case (KText(x), KText(y)) => LexCmp(x, y)
    case (KBlob(x), KBlob(y)) => LexCmp(x, y)
    case _ => CmpInt(KeyRank(a), KeyRank(b))
  }

  function Collate(s: bytes, coll: Collation): bytes {
    match coll
    case Binary => s
    case NoCase => Lowered(s)
    case RTrim => TrimEnd(s)
  }

  ghost function KeyOf(v: Value, coll: Collation): Key
    requires v.Valid()
  {
    match v
    case Null => KNull
    case Integer(i) => KNum(i as real)
    case Real(r) =>
      if r.Finite? then KNum(r.Value()) else if r == Infinite(true) then KMinusInf else KPlusInf
    case Text(s) => KText(Collate(StrView(s), coll))
    case Blob(b) => KBlob(b)
  }

  /** Every comparison of storable values agrees with the order of their keys. */
  lemma {:induction false} ComparisonFollowsKeys(a: Value, b: Value, coll: Collation)
    requires a.Valid() && b.Valid()
    ensures CmpValuesColl(a, b, coll) == CmpKey(KeyOf(a, coll), KeyOf(b, coll))
  {
    match (a, b)
    case (Integer(i), Real(r)) => if r.Finite? { IntFloatExact(i, r); }
    case (Real(r), Integer(i)) => if r.Finite? { IntFloatExact(i, r); }
    case _ =>
  }

  lemma {:induction false} KeyFlip(a: Key, b: Key)
    ensures CmpKey(b, a) == CmpKey(a, b).Reverse()
  {
    match (a, b)
    case (KText(x), KText(y)) => LexFlip(x, y);
    case (KBlob(x), KBlob(y)) => LexFlip(x, y);
    case _ =>
  }

  lemma {:induction false} KeyTransitive(a: Key, b: Key, c: Key)
    requires CmpKey(a, b) != Greater && CmpKey(b, c) != Greater
    ensures CmpKey(a, c) != Greater
    ensures CmpKey(a, b) == Less || CmpKey(b, c) == Less ==> CmpKey(a, c) == Less
  {
    match (a, b, c)
    case (KText(x), KText(y), KText(z)) => LexTransitive(x, y, z);
    case (KBlob(x), KBlob(y), KBlob(z)) => LexTransitive(x, y, z);
    case _ =>
  }
}
