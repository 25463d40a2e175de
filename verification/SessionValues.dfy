/** Column values as a session records them, and their form in a changeset. */
module SessionValues {
  import Seqs
  import opened Bytes
  import opened BigEndian
  import opened Changeset
  import Varint

  datatype Value = Null | Integer(i: int) | Real(bits: nat) | Text(text: bytes) | Blob(blob: bytes)

  const TWO_63: nat := 0x8000_0000_0000_0000

  /** Integers and reals of 64 bits, text in UTF-8, and lengths the format can carry. */
  predicate ValueOk(v: Value) {
    match v
    case Null => true
    case Integer(i) => 0 - TWO_63 <= i < TWO_63
    case Real(bits) => bits < Varint.TWO_64
    case Text(t) => ValidUtf8(t) && |t| < Varint.TWO_56
    case Blob(b) => |b| < Varint.TWO_56
  }

  // ----- Lengths

  /** The bytes written for a length: above 2^56 there are ten of them. */
  function LengthBytes(v: nat): bytes {
    if v < Varint.TWO_56 then Varint.Groups(v, 0)
    else Varint.FixedGroups(v / 256, 9) + [v % 256]
  }

  /** Lengths are read back exactly when they are below 2^56. */
  lemma {:induction false} LengthReadsBack(v: nat, rest: bytes)
    ensures Varint.Decode(LengthBytes(v) + rest) == Varint.Decoded(v, |LengthBytes(v)|) <==> v < Varint.TWO_56
  {
    if v < Varint.TWO_56 {
      Varint.RoundTripSmall(v, rest);
    } else {
      Varint.FixedLength(v / 256, 9);
    }
  }

  // Groups of seven bits, least significant first.
  function LowFirst(v: nat): seq<nat> {
    if v == 0 then [] else [v % 128] + LowFirst(v / 128)
  }

  // The groups from the last down to `from`, all but the first marked as continued.
  function Reversed(buf: seq<nat>, from: nat): bytes
    requires from <= |buf| && forall i :: 0 <= i < |buf| ==> buf[i] < 128
    decreases |buf| - from
  {
    if from == |buf| then [] else Reversed(buf, from + 1) + [if from == 0 then buf[from] else buf[from] + 128]
  }

  lemma {:induction false} LowFirstSmall(v: nat)
    ensures forall i :: 0 <= i < |LowFirst(v)| ==> LowFirst(v)[i] < 128
    decreases v
  {
    if v > 0 {
      LowFirstSmall(v / 128);
    }
  }

  // The value that is left after `k` groups.
  function Shifted(v: nat, k: nat): nat {
    if k == 0 then v else Shifted(v, k - 1) / 128
  }

  lemma {:induction false} ShiftedTail(v: nat, k: nat)
    ensures Shifted(v / 128, k) == Shifted(v, k + 1)
  {
    if k > 0 {
      ShiftedTail(v, k - 1);
    }
  }

  lemma {:induction false} LowFirstAt(v: nat, k: nat)
    requires k < |LowFirst(v)|
    ensures Shifted(v, k) > 0 && LowFirst(v)[k] == Shifted(v, k) % 128
    ensures k + 1 == |LowFirst(v)| <==> Shifted(v, k) < 128
    decreases k
  {
    if k > 0 {
      LowFirstAt(v / 128, k - 1);
      ShiftedTail(v, k - 1);
    } else {
      assert LowFirst(v)[1..] == LowFirst(v / 128);
    }
  }

  lemma {:induction false} ReversedIsGroups(v: nat, from: nat)
    requires from < |LowFirst(v)|
    ensures forall i :: 0 <= i < |LowFirst(v)| ==> LowFirst(v)[i] < 128
    ensures Reversed(LowFirst(v), from) == Varint.Groups(Shifted(v, from), if from == 0 then 0 else 128)
    decreases |LowFirst(v)| - from
  {
    LowFirstSmall(v);
    LowFirstAt(v, from);
    var buf := LowFirst(v);
    if from + 1 < |buf| {
      ReversedIsGroups(v, from + 1);
    } else {
      assert Reversed(buf, from + 1) == [];
    }
  }

  // The lowest byte and `n` groups before it, from the last to the first.
  method AppendFixed(v: nat, n: nat, last: byte) returns (out: bytes)
    ensures out == Varint.FixedGroups(v, n) + [last]
  {
    var val := v;
    out := [last];
    for k := 0 to n
      invariant Varint.FixedGroups(v, n) + [last] == Varint.FixedGroups(val, n - k) + out
    {
      var b := val % 128 + 128;
      Seqs.Assoc(Varint.FixedGroups(val / 128, n - k - 1), [b], out);
      out := [b] + out;
      val := val / 128;
    }
  }

  // Ten bytes.
  method AppendLong(v: nat) returns (out: bytes)
    requires v >= Varint.TWO_56
    ensures out == LengthBytes(v)
  {
    out := AppendFixed(v / 256, 9, v % 256);
  }

  /** Append a length. */
  method AppendVarint(out: bytes, v: nat) returns (r: bytes)
    ensures r == out + LengthBytes(v)
  {
    if v <= 127 {
      return out + [v];
    }
    if v >= Varint.TWO_56 {
      var long := AppendLong(v);
      return out + long;
    }
    var buf := SplitGroups(v);
    var groups := JoinGroups(buf, v);
    return out + groups;
  }

  // The groups of a length, the lowest first.
  method SplitGroups(v: nat) returns (buf: seq<nat>)
    ensures buf == LowFirst(v)
  {
    var val := v;
    buf := [];
    while val != 0
      invariant LowFirst(v) == buf + LowFirst(val)
      decreases val
    {
      Seqs.Assoc(buf, [val % 128], LowFirst(val / 128));
      buf, val := buf + [val % 128], val / 128;
    }
  }

  // The groups as bytes, the highest first.
  method JoinGroups(buf: seq<nat>, v: nat) returns (r: bytes)
    requires buf == LowFirst(v) && 0 < v < Varint.TWO_56
    ensures r == LengthBytes(v)
  {
    LowFirstSmall(v);
    ReversedIsGroups(v, 0);
    r := [];
    assert Reversed(buf, |buf|) == [];
    for i := |buf| downto 0
      invariant r == Reversed(buf, i)
    {
      r := r + [if i == 0 then buf[i] else buf[i] + 128];
    }
  }

  // ----- Values

  // The two's complement of a 64-bit integer.
  function Unsigned(i: int): nat
    requires 0 - TWO_63 <= i < TWO_63
  {
    if i < 0 then i + Varint.TWO_64 else i
  }

  function Signed(u: nat): int
    requires u < Varint.TWO_64
  {
    if u >= TWO_63 then u - Varint.TWO_64 else u
  }

  function Sized(kind: byte, b: bytes): bytes {
    [kind] + LengthBytes(|b|) + b
  }

  /** A value as a field of a record. */
  function Encode(v: Value): (f: bytes)
    requires ValueOk(v)
    ensures f != []
  {
    match v
    case Null => [T_NULL]
    case Integer(i) => [T_INT] + Be64(Unsigned(i))
    case Real(bits) => [T_FLOAT] + Be64(bits)
    case Text(t) => Sized(T_TEXT, t)
    case Blob(b) => Sized(T_BLOB, b)
  }

  datatype ReadResult = ReadResult(value: Option<Value>, length: nat)

  // The content of a text or blob field.
  function ReadSized(s: bytes): Result<(bytes, nat)>
    requires s != []
  {
    match Varint.Decode(s[1..])
    case Truncated => Corrupt
    case Decoded(n, len) => if 1 + len + n > |s| then Corrupt else Ok((s[1 + len..1 + len + n], 1 + len + n))
  }

  /** The value at the front of `s`; none for an omitted field. */
  function ReadValue(s: bytes): (r: Result<ReadResult>)
    ensures r.Ok? ==> 0 < r.value.length <= |s|
  {
    if s == [] then Corrupt
    else if s[0] == 0 then Ok(ReadResult(None, 1))
    else if s[0] == T_NULL then Ok(ReadResult(Some(Null), 1))
    else if s[0] == T_INT then
      if |s| < 9 then Corrupt else Ok(ReadResult(Some(Integer(Signed(Get64(s, 1)))), 9))
    else if s[0] == T_FLOAT then
      if |s| < 9 then Corrupt else Ok(ReadResult(Some(Real(Get64(s, 1))), 9))
    else if s[0] == T_TEXT then
      match ReadSized(s)
      case Corrupt => Corrupt
      case Ok((t, n)) => if ValidUtf8(t) then Ok(ReadResult(Some(Text(t)), n)) else Corrupt
    else if s[0] == T_BLOB then
      match ReadSized(s)
      case Corrupt => Corrupt
      case Ok((b, n)) => Ok(ReadResult(Some(Blob(b)), n))
    else Corrupt
  }

  lemma {:induction false} SizedReadsBack(kind: byte, b: bytes, rest: bytes)
    requires |b| < Varint.TWO_56
    ensures ReadSized(Sized(kind, b) + rest) == Ok((b, |Sized(kind, b)|)) && (Sized(kind, b) + rest)[0] == kind
  {
    var n := LengthBytes(|b|);
    var s := Sized(kind, b) + rest;
    assert s[1..] == n + (b + rest);
    LengthReadsBack(|b|, b + rest);
    assert s == ([kind] + n) + (b + rest);
    assert s[1 + |n|..1 + |n| + |b|] == b;
  }

  lemma {:induction false} WordReadsBack(kind: byte, u: nat, rest: bytes)
    requires u < Varint.TWO_64
    ensures var s := [kind] + Be64(u) + rest; |s| >= 9 && s[0] == kind && Get64(s, 1) == u
  {
    var s := [kind] + Be64(u) + rest;
    assert s[1..9] == Be64(u);
    Be64RoundTrip(s, 1, u);
  }

  /** Every value is read back, and exactly its bytes are consumed. */
  lemma {:induction false} ValueReadsBack(v: Value, rest: bytes)
    requires ValueOk(v)
    ensures ReadValue(Encode(v) + rest) == Ok(ReadResult(Some(v), |Encode(v)|))
  {
    match v
    case Null =>
    case Integer(i) => WordReadsBack(T_INT, Unsigned(i), rest);
    case Real(bits) => WordReadsBack(T_FLOAT, bits, rest);
    case Text(t) => SizedReadsBack(T_TEXT, t, rest);
    case Blob(b) => SizedReadsBack(T_BLOB, b, rest);
  }

  lemma {:induction false} EncodeInjective(a: Value, b: Value)
    requires ValueOk(a) && ValueOk(b) && Encode(a) == Encode(b)
    ensures a == b
  {
    ValueReadsBack(a, []);
    ValueReadsBack(b, []);
  }

  // A value that can be read is also a field to the byte transforms.
  lemma {:induction false} ReadIsField(s: bytes)
    requires ReadValue(s).Ok?
    ensures SerialLen(s) == Ok(ReadValue(s).value.length)
  {
  }

  lemma {:induction false} EncodeIsField(v: Value)
    requires ValueOk(v)
    ensures IsField(Encode(v)) && Encode(v) != OMIT
  {
    ValueReadsBack(v, []);
    assert Encode(v) + [] == Encode(v);
    ReadIsField(Encode(v));
  }

  // ----- Equality of values

  // The bits of a NaN.
  predicate IsNaN(bits: nat) {
    0x7FF0_0000_0000_0000 < bits % TWO_63
  }

  /** The equality of two reals: NaN differs from itself, and the two zeros are equal. */
  predicate RealEq(a: nat, b: nat) {
    !IsNaN(a) && !IsNaN(b) && (a == b || (a % TWO_63 == 0 && b % TWO_63 == 0))
  }

  /** The test for a changed column. */
  predicate Differs(a: Value, b: Value) {
    if a.Real? && b.Real? then !RealEq(a.bits, b.bits) else a != b
  }

  // Reals other than NaN and negative zero, for which equal values have equal bits.
  predicate Plain(v: Value) {
    v.Real? ==> !IsNaN(v.bits) && v.bits != TWO_63
  }

  lemma {:induction false} PlainDiffers(a: Value, b: Value)
    requires ValueOk(a) && ValueOk(b) && Plain(a) && Plain(b)
    ensures Differs(a, b) <==> a != b
  {
  }
}
