/** Big-endian integers of two, four and eight bytes. */
module BigEndian {
  import opened Bytes

  function Be16(v: nat): (b: bytes)
    requires v < 0x1_0000
    ensures |b| == 2
  {
    [v / 256, v % 256]
  }

  function Be32(v: nat): (b: bytes)
    requires v < 0x1_0000_0000
    ensures |b| == 4
  {
    [v / 0x100_0000, v / 0x1_0000 % 256, v / 256 % 256, v % 256]
  }

  function Get16(b: bytes, at: nat): (v: nat)
    requires at + 2 <= |b|
    ensures v < 0x1_0000
  {
    b[at] as int * 256 + b[at + 1]
  }

  function Get32(b: bytes, at: nat): (v: nat)
    requires at + 4 <= |b|
    ensures v < 0x1_0000_0000
  {
    b[at] as int * 0x100_0000 + b[at + 1] as int * 0x1_0000 + b[at + 2] as int * 256 + b[at + 3]
  }

  lemma {:induction false} Be16RoundTrip(b: bytes, at: nat, v: nat)
    requires v < 0x1_0000 && at + 2 <= |b| && b[at..at + 2] == Be16(v)
    ensures Get16(b, at) == v
  {
    assert b[at] == b[at..at + 2][0] && b[at + 1] == b[at..at + 2][1];
  }

  lemma {:induction false} Be32RoundTrip(b: bytes, at: nat, v: nat)
    requires v < 0x1_0000_0000 && at + 4 <= |b| && b[at..at + 4] == Be32(v)
    ensures Get32(b, at) == v
  {
    assert b[at] == b[at..at + 4][0] && b[at + 1] == b[at..at + 4][1];
    assert b[at + 2] == b[at..at + 4][2] && b[at + 3] == b[at..at + 4][3];
  }

  function Be64(v: nat): (b: bytes)
    requires v < 0x1_0000_0000_0000_0000
    ensures |b| == 8
  {
    Be32(v / 0x1_0000_0000) + Be32(v % 0x1_0000_0000)
  }

  function Get64(b: bytes, at: nat): (v: nat)
    requires at + 8 <= |b|
    ensures v < 0x1_0000_0000_0000_0000
  {
    Get32(b, at) * 0x1_0000_0000 + Get32(b, at + 4)
  }

  lemma {:induction false} Be64RoundTrip(b: bytes, at: nat, v: nat)
    requires v < 0x1_0000_0000_0000_0000 && at + 8 <= |b| && b[at..at + 8] == Be64(v)
    ensures Get64(b, at) == v
  {
    assert b[at..at + 4] == b[at..at + 8][..4] && b[at + 4..at + 8] == b[at..at + 8][4..];
    Be32RoundTrip(b, at, v / 0x1_0000_0000);
    Be32RoundTrip(b, at + 4, v % 0x1_0000_0000);
  }
}
