/** Bytes, lexicographic comparison and UTF-8 validity. */
module Bytes {

  type byte = x: int | 0 <= x < 256

  type bytes = seq<byte>

  datatype Result<T> = Ok(value: T) | Corrupt

  datatype Option<T> = None | Some(value: T)

  datatype Ordering = Less | Equal | Greater {
    function Reverse(): Ordering {
      match this
      case Less => Greater
      case Equal => Equal
      case Greater => Less
    }
  }

  function CmpInt(a: int, b: int): Ordering {
    if a < b then Less else if a == b then Equal else Greater
  }

  /** `memcmp` order, with a proper prefix before its extensions. */
  function LexCmp(a: bytes, b: bytes): Ordering {
    if a == [] && b == [] then Equal
    else if a == [] then Less
    else if b == [] then Greater
    else if a[0] != b[0] then CmpInt(a[0], b[0])
    else LexCmp(a[1..], b[1..])
  }

  lemma {:induction false} LexFlip(a: bytes, b: bytes)
    ensures LexCmp(b, a) == LexCmp(a, b).Reverse()
  {
    if a != [] && b != [] && a[0] == b[0] {
      LexFlip(a[1..], b[1..]);
    }
  }

  lemma {:induction false} LexEqual(a: bytes, b: bytes)
    ensures LexCmp(a, b) == Equal <==> a == b
  {
    if a != [] && b != [] {
      LexEqual(a[1..], b[1..]);
      if a[0] == b[0] && a[1..] == b[1..] {
        assert a == [a[0]] + a[1..] == b;
      }
    }
  }

  lemma {:induction false} LexTransitive(a: bytes, b: bytes, c: bytes)
    requires LexCmp(a, b) != Greater && LexCmp(b, c) != Greater
    ensures LexCmp(a, c) != Greater
    ensures LexCmp(a, b) == Less || LexCmp(b, c) == Less ==> LexCmp(a, c) == Less
  {
    if a != [] && b != [] && c != [] && a[0] == b[0] == c[0] {
      LexTransitive(a[1..], b[1..], c[1..]);
    }
  }

  predicate Continuation(b: byte) {
    0x80 <= b < 0xC0
  }

  /** Length in bytes of the well-formed UTF-8 sequence at the front of `s` (section 4 of
      RFC 3629), or 0 if there is none. */
  function Utf8CharLen(s: bytes): (n: nat)
    requires s != []
    ensures n <= |s|
  {
    var b := s[0];
    if b < 0x80 then 1
    else if 0xC2 <= b < 0xE0 then
      if |s| >= 2 && Continuation(s[1]) then 2 else 0
    else if 0xE0 <= b < 0xF0 then
      if |s| >= 3 && Continuation(s[1]) && Continuation(s[2])
         && (b == 0xE0 ==> s[1] >= 0xA0) && (b == 0xED ==> s[1] < 0xA0) then 3 else 0
    else if 0xF0 <= b < 0xF5 then
      if |s| >= 4 && Continuation(s[1]) && Continuation(s[2]) && Continuation(s[3])
         && (b == 0xF0 ==> s[1] >= 0x90) && (b == 0xF4 ==> s[1] < 0x90) then 4 else 0
    else 0
  }

  predicate ValidUtf8(s: bytes) {
    s == [] || (Utf8CharLen(s) > 0 && ValidUtf8(s[Utf8CharLen(s)..]))
  }

  // ----- Results

  function Prepend(front: bytes, r: Result<bytes>): Result<bytes> {
    match r
    case Corrupt => Corrupt
    case Ok(rest) => Ok(front + rest)
  }

  lemma {:induction false} PrependStep(a: bytes, b: bytes, r: Result<bytes>)
    ensures Prepend(a, Prepend(b, r)) == Prepend(a + b, r)
  {
    if r.Ok? {
      assert a + (b + r.value) == (a + b) + r.value;
    }
  }
}
