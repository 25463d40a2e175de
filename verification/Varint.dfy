/** SQLite's variable-length integers: big-endian groups of seven bits with a continuation bit, and
    a ninth byte that carries eight. */
module Varint {
  import opened Bytes

  const TWO_56: nat := 0x100_0000_0000_0000
  const TWO_64: nat := 0x1_0000_0000_0000_0000

  datatype Decoded = Truncated | Decoded(value: nat, length: nat)

  function Pow128(k: nat): nat
    ensures Pow128(k) > 0
  {
    if k == 0 then 1 else 128 * Pow128(k - 1)
  }

  // Groups of seven bits, most significant first; `last` is added to the final one.
  function Groups(v: nat, last: byte): bytes
    requires last == 0 || last == 128
    decreases v
  {
    if v < 128 then [v + last] else Groups(v / 128, 128) + [v % 128 + last]
  }

  // Exactly `k` groups, all with the continuation bit.
  function FixedGroups(v: nat, k: nat): bytes
    decreases k
  {
    if k == 0 then [] else FixedGroups(v / 128, k - 1) + [v % 128 + 128]
  }

  /** The encoding of a 64-bit value. */
  function Encode(v: nat): (b: bytes)
    requires v < TWO_64
    ensures b != []
  {
    if v < TWO_56 then Groups(v, 0) else FixedGroups(v / 256, 8) + [v % 256]
  }

  function DecodeFrom(s: bytes, i: nat, acc: nat): Decoded
    decreases |s|
  {
    if s == [] then Truncated
    else if i >= 8 then Decoded(acc * 256 + s[0], i + 1)
    else if s[0] < 128 then Decoded(acc * 128 + s[0], i + 1)
    else DecodeFrom(s[1..], i + 1, acc * 128 + (s[0] - 128))
  }

  /** The varint at the front of `s` and its length in bytes. */
  function Decode(s: bytes): (d: Decoded)
    ensures d.Decoded? ==> 0 < d.length <= |s| && d.length <= 9
  {
    DecodeLength(s, 0, 0);
    DecodeFrom(s, 0, 0)
  }

  // A byte with the continuation bit, and any other.
  lemma {:induction false} Continues(s: bytes, i: nat, acc: nat)
    requires s != [] && i < 8 && s[0] >= 128
    ensures DecodeFrom(s, i, acc) == DecodeFrom(s[1..], i + 1, acc * 128 + (s[0] - 128))
  {
  }

  lemma {:induction false} Stops(s: bytes, i: nat, acc: nat)
    requires s != [] && (i >= 8 || s[0] < 128)
    ensures DecodeFrom(s, i, acc) == Decoded(if i >= 8 then acc * 256 + s[0] else acc * 128 + s[0], i + 1)
  {
  }

  lemma {:induction false} DecodeLength(s: bytes, i: nat, acc: nat)
    requires i <= 8
    ensures var d := DecodeFrom(s, i, acc); d.Decoded? ==> i < d.length <= i + |s| && d.length <= 9
    decreases |s|
  {
    if s != [] {
      if i < 8 && s[0] >= 128 {
        Continues(s, i, acc);
        DecodeLength(s[1..], i + 1, acc * 128 + (s[0] - 128));
      } else {
        Stops(s, i, acc);
      }
    }
  }

  /** Decoding looks only at the bytes of the varint. */
  lemma {:induction false} DecodeLocal(s: bytes, t: bytes)
    requires Decode(s).Decoded? && |t| >= Decode(s).length && t[..Decode(s).length] == s[..Decode(s).length]
    ensures Decode(t) == Decode(s)
  {
    DecodeFromLocal(s, t, 0, 0, Decode(s).length);
  }

  lemma {:induction false} SameFront(s: bytes, t: bytes, n: nat)
    requires 0 < n <= |s| && n <= |t| && t[..n] == s[..n]
    ensures t[0] == s[0] && t[1..][..n - 1] == s[1..][..n - 1]
  {
    assert t[0] == t[..n][0] && s[0] == s[..n][0];
    assert t[1..][..n - 1] == t[..n][1..] && s[1..][..n - 1] == s[..n][1..];
  }

  lemma {:induction false} DecodeFromLocal(s: bytes, t: bytes, i: nat, acc: nat, n: nat)
    requires i <= 8 && DecodeFrom(s, i, acc).Decoded? && DecodeFrom(s, i, acc).length == i + n
    requires 0 < n <= |s| && n <= |t| && t[..n] == s[..n]
    ensures DecodeFrom(t, i, acc) == DecodeFrom(s, i, acc)
    decreases |s|
  {
    SameFront(s, t, n);
    if i < 8 && s[0] >= 128 {
      var more := acc * 128 + (s[0] - 128);
      Continues(s, i, acc);
      Continues(t, i, acc);
      DecodeLength(s[1..], i + 1, more);
      DecodeFromLocal(s[1..], t[1..], i + 1, more, n - 1);
    } else {
      Stops(s, i, acc);
      Stops(t, i, acc);
    }
  }

  lemma {:induction false} GroupsShort(v: nat, last: byte, k: nat)
    requires (last == 0 || last == 128) && k > 0 && v < Pow128(k)
    ensures 0 < |Groups(v, last)| <= k
  {
    if v >= 128 {
      assert k > 1;
      assert v / 128 < Pow128(k - 1);
      GroupsShort(v / 128, 128, k - 1);
    }
  }

  lemma {:induction false} Regroup(v: nat)
    ensures (v / 128) * 128 + v % 128 == v
  {
  }

  // The value a run of continued groups accumulates.
  ghost function Accumulated(g: bytes, acc: int): int {
    if g == [] then acc else Accumulated(g[1..], acc * 128 + (g[0] as int - 128))
  }

  ghost predicate Continued(g: bytes) {
    forall j :: 0 <= j < |g| ==> g[j] >= 128
  }

  type Decoder = (bytes, nat, int) -> Decoded

  // `dec` takes a continued byte into account.
  ghost predicate Takes(dec: Decoder, s: bytes, i: nat, acc: int) {
    s != [] && i < 8 && s[0] >= 128 ==> dec(s, i, acc) == dec(s[1..], i + 1, acc * 128 + (s[0] as int - 128))
  }

  lemma {:induction false} HeadAndTail(g: bytes, tail: bytes)
    requires g != []
    ensures (g + tail)[0] == g[0] && (g + tail)[1..] == g[1..] + tail
  {
  }

  /** Reading a run of continued groups. */
  lemma {:induction false} DecodeRun(dec: Decoder, g: bytes, tail: bytes, i: nat, acc: int)
    requires Continued(g) && i + |g| <= 8
    requires forall s: bytes, j: nat, a: int :: a >= 0 ==> Takes(dec, s, j, a)
    requires acc >= 0
    ensures dec(g + tail, i, acc) == dec(tail, i + |g|, Accumulated(g, acc))
    decreases g
  {
    if g == [] {
      assert g + tail == tail;
    } else {
      HeadAndTail(g, tail);
      assert Takes(dec, g + tail, i, acc);
      DecodeRun(dec, g[1..], tail, i + 1, acc * 128 + (g[0] as int - 128));
    }
  }

  function FromInt(s: bytes, i: nat, acc: int): Decoded {
    if acc < 0 then Truncated else DecodeFrom(s, i, acc)
  }

  lemma {:induction false} FromIntTakes(s: bytes, i: nat, acc: int)
    requires acc >= 0
    ensures Takes(FromInt, s, i, acc)
  {
    if s != [] && i < 8 && s[0] >= 128 {
      Continues(s, i, acc);
    }
  }

  lemma {:induction false} DecodeContinued(g: bytes, tail: bytes, v: nat)
    requires Continued(g) && |g| <= 8 && Accumulated(g, 0) == v
    ensures DecodeFrom(g + tail, 0, 0) == DecodeFrom(tail, |g|, v)
  {
    forall s: bytes, j: nat, a: int | a >= 0
      ensures Takes(FromInt, s, j, a)
    {
      FromIntTakes(s, j, a);
    }
    DecodeRun(FromInt, g, tail, 0, 0);
  }

  lemma {:induction false} AccumulatedSnoc(g: bytes, b: byte, acc: int)
    ensures Accumulated(g + [b], acc) == Accumulated(g, acc) * 128 + (b as int - 128)
    decreases g
  {
    if g == [] {
      assert g + [b] == [b] && [b][1..] == [];
    } else {
      assert (g + [b])[1..] == g[1..] + [b] && (g + [b])[0] == g[0];
      AccumulatedSnoc(g[1..], b, acc * 128 + (g[0] as int - 128));
    }
  }

  lemma {:induction false} GroupsAccumulate(v: nat)
    ensures Continued(Groups(v, 128)) && Accumulated(Groups(v, 128), 0) == v
    decreases v
  {
    if v < 128 {
      assert Groups(v, 128)[1..] == [];
    } else {
      GroupsAccumulate(v / 128);
      AccumulatedSnoc(Groups(v / 128, 128), v % 128 + 128, 0);
      Regroup(v);
    }
  }

  lemma {:induction false} FixedAccumulate(v: nat, k: nat)
    requires v < Pow128(k)
    ensures Continued(FixedGroups(v, k)) && Accumulated(FixedGroups(v, k), 0) == v
    decreases k
  {
    if k > 0 {
      Pow128Div(v, k);
      FixedAccumulate(v / 128, k - 1);
      AccumulatedSnoc(FixedGroups(v / 128, k - 1), v % 128 + 128, 0);
      Regroup(v);
    }
  }

  /** Reading groups with the continuation bit accumulates their value. */
  lemma {:induction false} DecodeGroups(v: nat, tail: bytes)
    requires |Groups(v, 128)| <= 8
    ensures DecodeFrom(Groups(v, 128) + tail, 0, 0) == DecodeFrom(tail, |Groups(v, 128)|, v)
  {
    GroupsAccumulate(v);
    DecodeContinued(Groups(v, 128), tail, v);
  }

  lemma {:induction false} Pow128Div(v: nat, k: nat)
    requires k > 0 && v < Pow128(k)
    ensures v / 128 < Pow128(k - 1)
  {
  }

  lemma {:induction false} FixedLength(v: nat, k: nat)
    ensures |FixedGroups(v, k)| == k
    decreases k
  {
    if k > 0 {
      FixedLength(v / 128, k - 1);
    }
  }

  lemma {:induction false} DecodeFixed(v: nat, k: nat, tail: bytes)
    requires k <= 8 && v < Pow128(k)
    ensures DecodeFrom(FixedGroups(v, k) + tail, 0, 0) == DecodeFrom(tail, k, v)
  {
    FixedLength(v, k);
    FixedAccumulate(v, k);
    DecodeContinued(FixedGroups(v, k), tail, v);
  }

  lemma {:induction false} Pow128Values()
    ensures Pow128(8) == TWO_56
  {
    assert Pow128(2) == 0x4000;
    assert Pow128(4) == 0x1000_0000;
    assert Pow128(6) == 0x400_0000_0000;
  }

  /** Small values: up to eight bytes, none of them needing the ninth. */
  lemma {:induction false} RoundTripSmall(v: nat, rest: bytes)
    requires v < TWO_56
    ensures Decode(Groups(v, 0) + rest) == Decoded(v, |Groups(v, 0)|) && |Groups(v, 0)| <= 8
  {
    Pow128Values();
    GroupsShort(v, 0, 8);
    if v >= 128 {
      var g, b := Groups(v / 128, 128), [v % 128];
      DecodeGroups(v / 128, b + rest);
      assert Groups(v, 0) + rest == g + (b + rest);
    }
  }

  /** Decoding what was encoded gives the value back, and exactly its bytes are read. */
  lemma {:induction false} RoundTrip(v: nat, rest: bytes)
    requires v < TWO_64
    ensures Decode(Encode(v) + rest) == Decoded(v, |Encode(v)|) && |Encode(v)| <= 9
  {
    if v < TWO_56 {
      RoundTripSmall(v, rest);
    } else {
      Pow128Values();
      var b := [v % 256];
      FixedLength(v / 256, 8);
      DecodeFixed(v / 256, 8, b + rest);
      assert Encode(v) + rest == FixedGroups(v / 256, 8) + (b + rest);
    }
  }

  // The bytes `e` are read as the varint `v`, whatever follows.
  ghost predicate IsVarint(e: bytes, v: nat) {
    e != [] && forall t: bytes :: Decode(e + t) == Decoded(v, |e|)
  }

  lemma {:induction false} EncodeIsVarint(v: nat)
    requires v < TWO_64
    ensures IsVarint(Encode(v), v)
  {
    forall t: bytes
      ensures Decode(Encode(v) + t) == Decoded(v, |Encode(v)|)
    {
      RoundTrip(v, t);
    }
  }

  /** Bytes that are varints one after the other. */
  predicate Whole(s: bytes)
    decreases |s|
  {
    s == [] || (Decode(s).Decoded? && Whole(s[Decode(s).length..]))
  }

  /** Putting `b` in front keeps bytes whole. */
  ghost predicate Keeps(whole: bytes -> bool, b: bytes) {
    forall rest: bytes :: whole(rest) ==> whole(b + rest)
  }

  lemma {:induction false} VarintKeeps(e: bytes, v: nat)
    requires IsVarint(e, v)
    ensures Keeps(Whole, e)
  {
    forall rest: bytes | Whole(rest)
      ensures Whole(e + rest)
    {
      assert Decode(e + rest) == Decoded(v, |e|);
      assert (e + rest)[|e|..] == rest;
    }
  }

  lemma {:induction false} KeepsNothing(whole: bytes -> bool)
    ensures Keeps(whole, [])
  {
    forall rest: bytes | whole(rest)
      ensures whole([] + rest)
    {
      assert [] + rest == rest;
    }
  }

  lemma {:induction false} KeepsBoth(whole: bytes -> bool, a: bytes, b: bytes)
    requires Keeps(whole, a) && Keeps(whole, b)
    ensures Keeps(whole, a + b)
  {
    forall rest: bytes | whole(rest)
      ensures whole((a + b) + rest)
    {
      assert (a + b) + rest == a + (b + rest);
    }
  }

  lemma {:induction false} KeepsAll(b: bytes)
    requires Keeps(Whole, b)
    ensures Whole(b)
  {
    assert Whole([]);
    assert b + [] == b;
  }

  lemma {:induction false} EncodeLength(v: nat)
    requires v < TWO_64
    ensures 0 < |Encode(v)| <= 9
  {
    RoundTrip(v, []);
  }
}
