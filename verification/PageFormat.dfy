/** Index pages as bytes (sections 1.6 and 1.7 of the SQLite Database File Format document).

    A page starts with a header, then an array of two-byte cell pointers growing up; the cells are
    packed from the end of the usable area down. The claims: whatever passes the fits test is written
    without error, and reading it back gives the same cells and child pointers. */
module PageFormat {
  import opened Bytes
  import opened BigEndian
  import opened IndexTree
  import Balance
  import Varint

  // ----- How much of a payload stays on the page

  // Subtraction that stops at zero.
  function Minus(a: nat, b: nat): nat {
    if a < b then 0 else a - b
  }

  function MaxLocal(usable: nat): nat {
    Minus(Minus(usable, 12) * 64 / 255, 23)
  }

  function MinLocal(usable: nat): nat {
    Minus(Minus(usable, 12) * 32 / 255, 23)
  }

  /** For an index cell with a payload of `p` bytes: how many stay local, and whether the rest goes to
      overflow pages. */
  function PayloadSplit(usable: nat, p: nat): (nat, bool) {
    if p <= MaxLocal(usable) then (p, false)
    else
      var span := if Minus(usable, 4) == 0 then 1 else Minus(usable, 4);
      var k := MinLocal(usable) + Minus(p, MinLocal(usable)) % span;
      (if k <= MaxLocal(usable) then k else MinLocal(usable), true)
  }

  /** A payload is local in full, or between the two limits with a non-empty rest; and where the upper
      limit allows, the rest fills its overflow pages to the last byte. */
  lemma {:induction false} PayloadSplitBounds(usable: nat, p: nat)
    requires usable >= 480
    ensures var (local, spills) := PayloadSplit(usable, p);
            && local <= MaxLocal(usable) && local <= p
            && (spills <==> p > MaxLocal(usable))
            && (!spills ==> local == p)
            && (spills ==> MinLocal(usable) <= local < p)
            && (spills && local > MinLocal(usable) ==> (p - local) % (usable - 4) == 0)
  {
    var m, span := MinLocal(usable), usable - 4;
    assert 0 < m <= MaxLocal(usable);
    if p > MaxLocal(usable) {
      var r := (p - m) % span;
      if m + r <= MaxLocal(usable) && r > 0 {
        ModOfRest(p - m, span);
      }
    }
  }

  lemma {:induction false} ModOfRest(x: nat, span: nat)
    requires span > 0
    ensures (x - x % span) % span == 0
  {
    var q := x / span;
    assert x - x % span == q * span;
    MultipleMod(q, span);
  }

  lemma {:induction false} MultipleMod(q: nat, span: nat)
    requires span > 0
    ensures (q * span) % span == 0
  {
    if q > 0 {
      MultipleMod(q - 1, span);
      assert q * span == (q - 1) * span + span;
      ModAddSelf((q - 1) * span, span);
    }
  }

  lemma {:induction false} ModAddSelf(x: nat, span: nat)
    requires span > 0
    ensures (x + span) % span == x % span
  {
    var q, r := x / span, x % span;
    assert x + span == (q + 1) * span + r;
    DivModUnique(x + span, span, q + 1, r);
  }

  lemma {:induction false} DivModUnique(x: nat, span: nat, q: nat, r: nat)
    requires span > 0 && r < span && x == q * span + r
    ensures x % span == r
  {
    var q', r' := x / span, x % span;
    assert x == q' * span + r';
    assert (q - q') * span == r' - r;
    SmallMultiple(q - q', span);
  }

  lemma {:induction false} SmallMultiple(d: int, span: nat)
    requires span > 0
    ensures d == 0 || d * span >= span || d * span <= 0 - span
  {
    if d > 0 {
      assert d * span == (d - 1) * span + span;
      NatProduct(d - 1, span);
    } else if d < 0 {
      assert d * span == -((-d - 1) * span) - span;
      NatProduct(-d - 1, span);
    }
  }

  lemma {:induction false} NatProduct(a: nat, b: nat)
    ensures a * b >= 0
  {
  }

  // ----- Writing into a buffer

  function Splice(b: bytes, at: nat, s: bytes): (r: bytes)
    requires at + |s| <= |b|
    ensures |r| == |b|
  {
    b[..at] + s + b[at + |s|..]
  }

  lemma {:induction false} SpliceReads(b: bytes, at: nat, s: bytes, lo: nat, hi: nat)
    requires at + |s| <= |b| && lo <= hi <= |b| && (hi <= at || at + |s| <= lo)
    ensures Splice(b, at, s)[lo..hi] == b[lo..hi]
    ensures Splice(b, at, s)[at..at + |s|] == s
  {
  }

  lemma {:induction false} TwoSplices(b: bytes, at: nat, s: bytes, at': nat, s': bytes, lo: nat, hi: nat)
    requires at + |s| <= |b| && lo <= hi <= |b| && (hi <= at || at + |s| <= lo)
    requires at' + |s'| <= |b| && (hi <= at' || at' + |s'| <= lo)
    ensures Splice(Splice(b, at, s), at', s')[lo..hi] == b[lo..hi]
  {
    SpliceReads(b, at, s, lo, hi);
    SpliceReads(Splice(b, at, s), at', s', lo, hi);
  }

  method Put(buf: array<byte>, at: nat, s: bytes)
    requires at + |s| <= buf.Length
    modifies buf
    ensures buf[..] == Splice(old(buf[..]), at, s)
  {
    for i := 0 to |s|
      invariant buf[..] == Splice(old(buf[..]), at, s[..i])
    {
      buf[at + i] := s[i];
      SpliceOneMore(old(buf[..]), at, s, i);
    }
    assert s[..|s|] == s;
  }

  lemma {:induction false} SpliceOneMore(b: bytes, at: nat, s: bytes, i: nat)
    requires at + |s| <= |b| && i < |s|
    ensures Splice(b, at, s[..i])[at + i := s[i]] == Splice(b, at, s[..i + 1])
  {
  }

  // ----- Laying cells out

  // Bytes in the first `n` cells.
  function Total(cells: seq<bytes>, n: nat): nat
    requires n <= |cells|
  {
    if n == 0 then 0 else Total(cells, n - 1) + |cells[n - 1]|
  }

  lemma {:induction false} TotalGrows(cells: seq<bytes>, i: nat, j: nat)
    requires i <= j <= |cells|
    ensures Total(cells, i) <= Total(cells, j)
  {
    if i < j {
      TotalGrows(cells, i, j - 1);
    }
  }

  /** The cells stay clear of the pointer array. */
  predicate Clear(cells: seq<bytes>, pointers: nat, usable: nat) {
    cells == [] || pointers + 2 * |cells| + Total(cells, |cells|) <= usable
  }

  /** Cell `i` is on the page, below the cells before it, and pointer `i` leads to it. */
  ghost predicate CellAt(page: bytes, cells: seq<bytes>, i: nat, pointers: nat, usable: nat)
    requires i < |cells|
  {
    var from := usable - Total(cells, i + 1);
    && pointers + 2 * |cells| <= from && from + |cells[i]| <= |page|
    && page[from..from + |cells[i]|] == cells[i]
    && page[pointers + 2 * i..pointers + 2 * i + 2] == Be16(from % 0x1_0000)
  }

  ghost predicate CellsAt(page: bytes, cells: seq<bytes>, n: nat, pointers: nat, usable: nat)
    requires n <= |cells|
  {
    forall i :: 0 <= i < n ==> CellAt(page, cells, i, pointers, usable)
  }

  // `page` differs from `before` at most in the ranges [a, b) and [c, d).
  ghost predicate SameAround(before: bytes, page: bytes, a: nat, b: nat, c: int, d: nat) {
    && |page| == |before|
    && forall j :: 0 <= j < |page| && !(a <= j < b) && !(c <= j < d) ==> page[j] == before[j]
  }

  /** The first `n` cells are on the page, and nothing else has changed since `before`. */
  ghost predicate Laid(before: bytes, page: bytes, cells: seq<bytes>, n: nat, pointers: nat, usable: nat)
    requires n <= |cells|
  {
    && usable <= |page|
    && (n > 0 ==> pointers + 2 * |cells| + Total(cells, n) <= usable)
    && CellsAt(page, cells, n, pointers, usable)
    && SameAround(before, page, pointers, pointers + 2 * n, usable - Total(cells, n), usable)
  }

  lemma {:induction false} CellKept(page: bytes, cells: seq<bytes>, i: nat, n: nat, pointers: nat, usable: nat)
    requires i < n < |cells| && usable <= |page|
    requires pointers + 2 * |cells| + Total(cells, n + 1) <= usable
    requires CellAt(page, cells, i, pointers, usable)
    ensures CellAt(Write(page, cells, n, pointers, usable), cells, i, pointers, usable)
  {
    var from, at := usable - Total(cells, n + 1), usable - Total(cells, i + 1);
    TotalGrows(cells, i + 1, n);
    TwoSplices(page, from, cells[n], pointers + 2 * n, Be16(from % 0x1_0000), at, at + |cells[i]|);
    TwoSplices(page, from, cells[n], pointers + 2 * n, Be16(from % 0x1_0000), pointers + 2 * i, pointers + 2 * i + 2);
  }

  // What one turn of the serializers' loops does to the page.
  function Write(page: bytes, cells: seq<bytes>, n: nat, pointers: nat, usable: nat): bytes
    requires n < |cells| && usable <= |page|
    requires pointers + 2 * |cells| + Total(cells, n + 1) <= usable
  {
    var from := usable - Total(cells, n + 1);
    Splice(Splice(page, from, cells[n]), pointers + 2 * n, Be16(from % 0x1_0000))
  }

  lemma {:induction false} CellWritten(page: bytes, cells: seq<bytes>, n: nat, pointers: nat, usable: nat)
    requires n < |cells| && usable <= |page|
    requires pointers + 2 * |cells| + Total(cells, n + 1) <= usable
    ensures CellAt(Write(page, cells, n, pointers, usable), cells, n, pointers, usable)
  {
    var from := usable - Total(cells, n + 1);
    var half := Splice(page, from, cells[n]);
    SpliceReads(page, from, cells[n], from, from);
    SpliceReads(half, pointers + 2 * n, Be16(from % 0x1_0000), from, from + |cells[n]|);
  }

  lemma {:induction false} LaidOneMore(before: bytes, page: bytes, cells: seq<bytes>, n: nat, pointers: nat,
                                       usable: nat)
    requires n < |cells| && Laid(before, page, cells, n, pointers, usable)
    requires pointers + 2 * |cells| + Total(cells, n + 1) <= usable
    ensures Laid(before, Write(page, cells, n, pointers, usable), cells, n + 1, pointers, usable)
  {
    CellWritten(page, cells, n, pointers, usable);
    forall i | 0 <= i < n
      ensures CellAt(Write(page, cells, n, pointers, usable), cells, i, pointers, usable)
    {
      CellKept(page, cells, i, n, pointers, usable);
    }
  }

  // One turn of the serializers' loops, in place.
  method WriteCell(buf: array<byte>, cells: seq<bytes>, n: nat, at: nat, pointers: nat, usable: nat)
    requires n < |cells| && usable <= buf.Length
    requires at + Total(cells, n + 1) == usable && pointers + 2 * |cells| <= at
    modifies buf
    ensures buf[..] == Write(old(buf[..]), cells, n, pointers, usable)
  {
    Put(buf, at, cells[n]);
    Put(buf, pointers + 2 * n, Be16(at % 0x1_0000));
  }

  /** Pack `cells` from the end of the usable area down; fails when they would meet the pointers. */
  method PackCells(buf: array<byte>, cells: seq<bytes>, pointers: nat, usable: nat) returns (content: Result<nat>)
    requires usable <= buf.Length
    modifies buf
    ensures content.Ok? <==> Clear(cells, pointers, usable)
    ensures content.Ok? ==> content.value + Total(cells, |cells|) == usable
    ensures content.Ok? ==> Laid(old(buf[..]), buf[..], cells, |cells|, pointers, usable)
  {
    var at := usable;
    ghost var before := buf[..];
    for i := 0 to |cells|
      invariant at + Total(cells, i) == usable
      invariant Laid(before, buf[..], cells, i, pointers, usable)
    {
      TotalGrows(cells, i + 1, |cells|);
      if at < |cells[i]| || at - |cells[i]| < pointers + 2 * |cells| {
        return Corrupt;
      }
      at := at - |cells[i]|;
      LaidOneMore(before, buf[..], cells, i, pointers, usable);
      WriteCell(buf, cells, i, at, pointers, usable);
    }
    return Ok(at);
  }

  // ----- Writing a page

  const INDEX_LEAF: byte := 0x0a
  const INDEX_INTERIOR: byte := 0x02

  // The start of the cell content area, where 65536 is stored as zero.
  function ContentField(content: nat): nat {
    if content >= 0x1_0000 then 0 else content
  }

  /** The header fields both kinds of page have. */
  ghost predicate Headed(page: bytes, body: nat, kind: byte, count: nat, content: nat) {
    && body + 8 <= |page| && page[body] == kind
    && page[body + 3..body + 5] == Be16(count % 0x1_0000)
    && page[body + 5..body + 7] == Be16(ContentField(content))
  }

  lemma {:induction false} CellsUntouched(before: bytes, page: bytes, body: nat, cells: seq<bytes>, pointers: nat,
                                          usable: nat)
    requires CellsAt(before, cells, |cells|, pointers, usable) && SameAround(before, page, body, pointers, 0, 0)
    ensures CellsAt(page, cells, |cells|, pointers, usable)
  {
    forall i | 0 <= i < |cells|
      ensures CellAt(page, cells, i, pointers, usable)
    {
      assert CellAt(before, cells, i, pointers, usable);
      var from := usable - Total(cells, i + 1);
      assert page[from..from + |cells[i]|] == before[from..from + |cells[i]|];
      assert page[pointers + 2 * i..pointers + 2 * i + 2] == before[pointers + 2 * i..pointers + 2 * i + 2];
    }
  }

  /** `page` is an index page with these cells: the prefix it was given, then the header, the pointers
      and the cells; the bytes between the pointers and the cells, or past the usable area, are zero. */
  ghost predicate PageOf(page: bytes, prefix: bytes, body: nat, kind: byte, cells: seq<bytes>, usable: nat)
  {
    var pointers := PointersAt(body, kind);
    && pointers <= usable <= |page| && |prefix| <= body
    && page[..|prefix|] == prefix && Total(cells, |cells|) <= usable
    && Headed(page, body, kind, |cells|, usable - Total(cells, |cells|))
    && CellsAt(page, cells, |cells|, pointers, usable)
    && ZeroIn(page, pointers + 2 * |cells|, usable - Total(cells, |cells|))
    && ZeroIn(page, usable, |page|)
  }

  ghost predicate ZeroIn(page: bytes, from: nat, to: nat) {
    forall j :: from <= j < to && j < |page| ==> page[j] == 0
  }

  function PointersAt(body: nat, kind: byte): nat {
    body + (if kind == INDEX_LEAF then 8 else 12)
  }

  ghost predicate Blank(page: bytes, prefix: bytes) {
    |prefix| <= |page| && page[..|prefix|] == prefix && ZeroIn(page, |prefix|, |page|)
  }

  lemma {:induction false} StillZero(before: bytes, packed: bytes, page: bytes, prefix: bytes, body: nat,
                                     pointers: nat, end: nat, content: nat, usable: nat)
    requires |prefix| <= body <= pointers <= end <= usable && pointers <= content <= usable && Blank(before, prefix)
    requires SameAround(before, packed, pointers, end, content, usable)
    requires SameAround(packed, page, body, pointers, 0, 0)
    ensures ZeroIn(page, end, content) && ZeroIn(page, usable, |page|) && page[..|prefix|] == prefix
  {
    assert page[..|prefix|] == before[..|prefix|];
  }

  lemma {:induction false} PageDone(before: bytes, packed: bytes, page: bytes, prefix: bytes, body: nat, kind: byte,
                                    cells: seq<bytes>, content: nat, usable: nat)
    requires |prefix| <= body && PointersAt(body, kind) <= usable <= |before| && Blank(before, prefix)
    requires Laid(before, packed, cells, |cells|, PointersAt(body, kind), usable)
    requires SameAround(packed, page, body, PointersAt(body, kind), 0, 0)
    requires content + Total(cells, |cells|) == usable && Headed(page, body, kind, |cells|, content)
    ensures PageOf(page, prefix, body, kind, cells, usable)
  {
    var pointers := PointersAt(body, kind);
    StillZero(before, packed, page, prefix, body, pointers, pointers + 2 * |cells|, content, usable);
    CellsUntouched(packed, page, body, cells, pointers, usable);
  }

  method NewPage(pageSize: nat, prefix: bytes) returns (buf: array<byte>)
    requires |prefix| <= pageSize
    ensures fresh(buf) && buf.Length == pageSize && Blank(buf[..], prefix)
  {
    buf := new byte[pageSize](_ => 0);
    Put(buf, 0, prefix);
  }

  method PutHeader(buf: array<byte>, body: nat, kind: byte, count: nat, content: nat)
    requires body + 8 <= buf.Length
    modifies buf
    ensures SameAround(old(buf[..]), buf[..], body, body + 8, 0, 0)
    ensures Headed(buf[..], body, kind, count, content)
  {
    Put(buf, body, [kind]);
    Put(buf, body + 3, Be16(count % 0x1_0000));
    Put(buf, body + 5, Be16(ContentField(content)));
  }

  /** A leaf page is written exactly when its cells stay clear of the pointers. */
  method SerializeIndexLeaf(pageSize: nat, usable: nat, body: nat, cells: seq<bytes>, prefix: bytes)
    returns (r: Result<bytes>)
    requires |prefix| <= body && body + 12 <= usable <= pageSize
    ensures r.Ok? <==> Clear(cells, body + 8, usable)
    ensures r.Ok? ==> |r.value| == pageSize && PageOf(r.value, prefix, body, INDEX_LEAF, cells, usable)
  {
    var buf := NewPage(pageSize, prefix);
    ghost var before := buf[..];
    var content := PackCells(buf, cells, body + 8, usable);
    if content.Corrupt? {
      return Corrupt;
    }
    ghost var packed := buf[..];
    PutHeader(buf, body, INDEX_LEAF, |cells|, content.value);
    PageDone(before, packed, buf[..], prefix, body, INDEX_LEAF, cells, content.value, usable);
    return Ok(buf[..]);
  }

  // An interior cell is the left child's page number and the record cell.
  function WithChild(child: nat, cell: bytes): bytes
    requires child < 0x1_0000_0000
  {
    Be32(child) + cell
  }

  function WithChildren(children: seq<nat>, cells: seq<bytes>): (r: seq<bytes>)
    requires |cells| <= |children| && forall i :: 0 <= i < |children| ==> children[i] < 0x1_0000_0000
    ensures |r| == |cells|
  {
    seq(|cells|, i requires 0 <= i < |cells| => WithChild(children[i], cells[i]))
  }

  method PutRight(buf: array<byte>, body: nat, right: nat)
    requires body + 12 <= buf.Length && right < 0x1_0000_0000
    modifies buf
    ensures SameAround(old(buf[..]), buf[..], body + 8, body + 12, 0, 0)
    ensures buf[body + 8..body + 12] == Be32(right)
  {
    Put(buf, body + 8, Be32(right));
    SpliceReads(old(buf[..]), body + 8, Be32(right), 0, 0);
  }

  lemma {:induction false} ThenRight(packed: bytes, headed: bytes, page: bytes, body: nat, count: nat, content: nat)
    requires body + 12 <= |packed| && SameAround(packed, headed, body, body + 8, 0, 0)
    requires Headed(headed, body, INDEX_INTERIOR, count, content) && SameAround(headed, page, body + 8, body + 12, 0, 0)
    ensures SameAround(packed, page, body, body + 12, 0, 0) && Headed(page, body, INDEX_INTERIOR, count, content)
  {
    assert page[body + 3..body + 5] == headed[body + 3..body + 5];
    assert page[body + 5..body + 7] == headed[body + 5..body + 7];
  }

  /** An interior page likewise; the last child goes into the header. */
  method SerializeIndexInterior(pageSize: nat, usable: nat, body: nat, children: seq<nat>, rcells: seq<bytes>,
                                prefix: bytes)
    returns (r: Result<bytes>)
    requires |prefix| <= body && body + 12 <= usable <= pageSize && |children| == |rcells| + 1
    requires forall i :: 0 <= i < |children| ==> children[i] < 0x1_0000_0000
    ensures r.Ok? <==> Clear(WithChildren(children, rcells), body + 12, usable)
    ensures r.Ok? ==>
              && |r.value| == pageSize
              && PageOf(r.value, prefix, body, INDEX_INTERIOR, WithChildren(children, rcells), usable)
              && r.value[body + 8..body + 12] == Be32(children[|rcells|])
  {
    var cells := WithChildren(children, rcells);
    var buf := NewPage(pageSize, prefix);
    ghost var before := buf[..];
    var content := PackCells(buf, cells, body + 12, usable);
    if content.Corrupt? {
      return Corrupt;
    }
    ghost var packed := buf[..];
    PutHeader(buf, body, INDEX_INTERIOR, |cells|, content.value);
    ghost var headed := buf[..];
    PutRight(buf, body, children[|rcells|]);
    ThenRight(packed, headed, buf[..], body, |cells|, content.value);
    PageDone(before, packed, buf[..], prefix, body, INDEX_INTERIOR, cells, content.value, usable);
    return Ok(buf[..]);
  }

  // ----- Reading a page

  datatype PageType = InteriorIndex | InteriorTable | LeafIndex | LeafTable {
    predicate IsLeaf() {
      LeafIndex? || LeafTable?
    }

    predicate IsTable() {
      InteriorTable? || LeafTable?
    }

    function HeaderLen(): nat {
      if IsLeaf() then 8 else 12
    }
  }

  datatype BtreePage = BtreePage(data: bytes, kind: PageType, body: nat, numCells: nat, right: nat)

  function TypeOf(b: byte): Result<PageType> {
    if b == 2 then Ok(InteriorIndex)
    else if b == 5 then Ok(InteriorTable)
    else if b == 10 then Ok(LeafIndex)
    else if b == 13 then Ok(LeafTable)
    else Corrupt
  }

  function Parse(data: bytes, body: nat): Result<BtreePage> {
    if body + 8 > |data| then Corrupt
    else
      match TypeOf(data[body])
      case Corrupt => Corrupt
      case Ok(kind) =>
        if body + kind.HeaderLen() > |data| then Corrupt
        else Ok(BtreePage(data, kind, body, Get16(data, body + 3), if kind.IsLeaf() then 0 else Get32(data, body + 8)))
  }

  function CellOffset(p: BtreePage, i: nat): Result<nat> {
    var at := p.body + p.kind.HeaderLen() + 2 * i;
    if i >= p.numCells || at + 2 > |p.data| || Get16(p.data, at) >= |p.data| then Corrupt
    else Ok(Get16(p.data, at))
  }

  /** The page to descend into at position `i`. */
  function ChildPointer(p: BtreePage, i: nat): Result<nat> {
    if p.kind.IsLeaf() then Corrupt
    else if i >= p.numCells then Ok(p.right)
    else
      match CellOffset(p, i)
      case Corrupt => Corrupt
      case Ok(off) => if off + 4 > |p.data| then Corrupt else Ok(Get32(p.data, off))
  }

  /** The record cell of index cell `i`, without the child pointer: what the writer moves around. */
  function RawIndexRecordCell(p: BtreePage, i: nat, usable: nat): Result<bytes> {
    if p.kind.IsTable() then Corrupt
    else
      match CellOffset(p, i)
      case Corrupt => Corrupt
      case Ok(off) =>
        var key := if p.kind.InteriorIndex? then off + 4 else off;
        if key > |p.data| then Corrupt
        else
          match Varint.Decode(p.data[key..])
          case Truncated => Corrupt
          case Decoded(plen, n) =>
            var (local, spills) := PayloadSplit(usable, plen);
            var end := key + n + local + (if spills then 4 else 0);
            if end > |p.data| then Corrupt else Ok(p.data[key..end])
  }

  /** The bytes of a record cell: the payload's length, its local part, and the first overflow page if
      there is one. */
  function RecordCell(record: bytes, usable: nat, overflow: nat): bytes
    requires usable >= 480 && |record| < Varint.TWO_64 && overflow < 0x1_0000_0000
  {
    var (local, spills) := PayloadSplit(usable, |record|);
    PayloadSplitBounds(usable, |record|);
    Varint.Encode(|record|) + record[..local] + (if spills then Be32(overflow) else [])
  }

  /** A record cell never takes more than a third of an interior page, which is what the split and
      balance code relies on. */
  lemma {:induction false} RecordCellIsSmall(record: bytes, usable: nat, overflow: nat)
    requires 480 <= usable && |record| < Varint.TWO_64 && overflow < 0x1_0000_0000
    ensures var c := RecordCell(record, usable, overflow); 0 < |c| && 3 * (|c| + 6) <= usable - 12
  {
    PayloadSplitBounds(usable, |record|);
    Varint.RoundTrip(|record|, []);
    var m := MaxLocal(usable);
    assert 255 * (m + 23) <= 64 * (usable - 12);
  }

  // The reader finds the end of a record cell by itself.
  lemma {:induction false} RecordCellRead(data: bytes, key: nat, record: bytes, usable: nat, overflow: nat)
    requires 480 <= usable && |record| < Varint.TWO_64 && overflow < 0x1_0000_0000
    requires var c := RecordCell(record, usable, overflow); key + |c| <= |data| && data[key..key + |c|] == c
    ensures Varint.Decode(data[key..]) == Varint.Decoded(|record|, |Varint.Encode(|record|)|)
  {
    PayloadSplitBounds(usable, |record|);
    var c, v := RecordCell(record, usable, overflow), Varint.Encode(|record|);
    var rest := c[|v|..] + data[key + |c|..];
    assert c == v + c[|v|..];
    assert data[key..] == c + data[key + |c|..] == v + rest;
    Varint.RoundTrip(|record|, rest);
  }

  ghost predicate IsRecordCell(c: bytes, usable: nat) {
    usable >= 480
    && exists record: bytes, overflow: nat ::
         |record| < Varint.TWO_64 && overflow < 0x1_0000_0000 && c == RecordCell(record, usable, overflow)
  }

  ghost predicate RecordCells(cells: seq<bytes>, usable: nat) {
    forall i :: 0 <= i < |cells| ==> IsRecordCell(cells[i], usable)
  }

  function KindOf(kind: byte): PageType {
    if kind == INDEX_LEAF then LeafIndex else InteriorIndex
  }

  lemma {:induction false} CountIsSmall(page: bytes, cells: seq<bytes>, pointers: nat, usable: nat)
    requires CellsAt(page, cells, |cells|, pointers, usable) && usable <= 0x1_0000
    ensures |cells| % 0x1_0000 == |cells|
  {
    if |cells| > 0 {
      assert CellAt(page, cells, |cells| - 1, pointers, usable);
    }
  }

  // The header is read back.
  lemma {:induction false} HeaderRead(page: bytes, prefix: bytes, body: nat, kind: byte, cells: seq<bytes>, usable: nat)
    requires kind == INDEX_LEAF || kind == INDEX_INTERIOR
    requires PageOf(page, prefix, body, kind, cells, usable) && usable <= 0x1_0000
    ensures Parse(page, body)
         == Ok(BtreePage(page, KindOf(kind), body, |cells|, if kind == INDEX_LEAF then 0 else Get32(page, body + 8)))
  {
    CountIsSmall(page, cells, PointersAt(body, kind), usable);
    Be16RoundTrip(page, body + 3, |cells|);
  }

  // The pointer array leads to the cells.
  lemma {:induction false} PointerLeads(p: BtreePage, cells: seq<bytes>, i: nat, pointers: nat, usable: nat)
    requires i < |cells| == p.numCells && cells[i] != [] && usable <= 0x1_0000 && usable <= |p.data|
    requires pointers == p.body + p.kind.HeaderLen() && CellAt(p.data, cells, i, pointers, usable)
    ensures CellOffset(p, i) == Ok(usable - Total(cells, i + 1))
  {
    Be16RoundTrip(p.data, pointers + 2 * i, usable - Total(cells, i + 1));
  }

  lemma {:induction false} RecordCellLength(record: bytes, usable: nat, overflow: nat)
    requires 480 <= usable && |record| < Varint.TWO_64 && overflow < 0x1_0000_0000
    ensures var (local, spills) := PayloadSplit(usable, |record|);
            |RecordCell(record, usable, overflow)|
            == |Varint.Encode(|record|)| + local + (if spills then 4 else 0)
  {
    PayloadSplitBounds(usable, |record|);
  }

  lemma {:induction false} RawCellIs(p: BtreePage, i: nat, off: nat, key: nat, plen: nat, n: nat, length: nat,
                                     usable: nat)
    requires !p.kind.IsTable() && CellOffset(p, i) == Ok(off)
    requires key == (if p.kind.InteriorIndex? then off + 4 else off) && key + length <= |p.data|
    requires Varint.Decode(p.data[key..]) == Varint.Decoded(plen, n)
    requires var (local, spills) := PayloadSplit(usable, plen); length == n + local + (if spills then 4 else 0)
    ensures RawIndexRecordCell(p, i, usable) == Ok(p.data[key..key + length])
  {
  }

  lemma {:induction false} RawCellRead(p: BtreePage, i: nat, off: nat, cell: bytes, usable: nat)
    requires !p.kind.IsTable() && CellOffset(p, i) == Ok(off) && IsRecordCell(cell, usable)
    requires var key := if p.kind.InteriorIndex? then off + 4 else off;
             key + |cell| <= |p.data| && p.data[key..key + |cell|] == cell
    ensures RawIndexRecordCell(p, i, usable) == Ok(cell)
  {
    var key := if p.kind.InteriorIndex? then off + 4 else off;
    var record: bytes, overflow: nat :|
      |record| < Varint.TWO_64 && overflow < 0x1_0000_0000 && cell == RecordCell(record, usable, overflow);
    RecordCellRead(p.data, key, record, usable, overflow);
    RecordCellLength(record, usable, overflow);
    RawCellIs(p, i, off, key, |record|, |Varint.Encode(|record|)|, |cell|, usable);
  }

  lemma {:induction false} RecordCellNonEmpty(cells: seq<bytes>, usable: nat, i: nat)
    requires RecordCells(cells, usable) && i < |cells|
    ensures IsRecordCell(cells[i], usable) && cells[i] != []
  {
    var record: bytes, overflow: nat :|
      |record| < Varint.TWO_64 && overflow < 0x1_0000_0000 && cells[i] == RecordCell(record, usable, overflow);
    RecordCellIsSmall(record, usable, overflow);
  }

  lemma {:induction false} PartsOfSlice(b: bytes, at: nat, s: bytes, t: bytes)
    requires at + |s + t| <= |b| && b[at..at + |s + t|] == s + t
    ensures b[at..at + |s|] == s && b[at + |s|..at + |s| + |t|] == t
  {
    assert b[at..at + |s|] == b[at..at + |s + t|][..|s|];
    assert b[at + |s|..at + |s| + |t|] == b[at..at + |s + t|][|s|..];
  }

  lemma {:induction false} LeafCellRead(p: BtreePage, cells: seq<bytes>, i: nat, usable: nat)
    requires p.kind == LeafIndex && i < |cells| == p.numCells && RecordCells(cells, usable)
    requires usable <= 0x1_0000 && usable <= |p.data| && CellAt(p.data, cells, i, p.body + 8, usable)
    ensures RawIndexRecordCell(p, i, usable) == Ok(cells[i])
  {
    RecordCellNonEmpty(cells, usable, i);
    PointerLeads(p, cells, i, p.body + 8, usable);
    RawCellRead(p, i, usable - Total(cells, i + 1), cells[i], usable);
  }

  lemma {:induction false} InteriorCellRead(p: BtreePage, cells: seq<bytes>, i: nat, child: nat, rcell: bytes,
                                            usable: nat)
    requires p.kind == InteriorIndex && i < |cells| == p.numCells && IsRecordCell(rcell, usable)
    requires child < 0x1_0000_0000 && cells[i] == WithChild(child, rcell)
    requires usable <= 0x1_0000 && usable <= |p.data| && CellAt(p.data, cells, i, p.body + 12, usable)
    ensures RawIndexRecordCell(p, i, usable) == Ok(rcell) && ChildPointer(p, i) == Ok(child)
  {
    var off := usable - Total(cells, i + 1);
    PointerLeads(p, cells, i, p.body + 12, usable);
    PartsOfSlice(p.data, off, Be32(child), rcell);
    Be32RoundTrip(p.data, off, child);
    RawCellRead(p, i, off, rcell, usable);
  }

  /** Reading a leaf page back gives its cells. */
  lemma {:induction false} LeafRoundTrip(page: bytes, prefix: bytes, body: nat, cells: seq<bytes>, usable: nat)
    requires PageOf(page, prefix, body, INDEX_LEAF, cells, usable) && usable <= 0x1_0000
    requires RecordCells(cells, usable)
    ensures var r := Parse(page, body);
            && r.Ok? && r.value.kind == LeafIndex && r.value.numCells == |cells|
            && forall i :: 0 <= i < |cells| ==> RawIndexRecordCell(r.value, i, usable) == Ok(cells[i])
  {
    HeaderRead(page, prefix, body, INDEX_LEAF, cells, usable);
    var p := BtreePage(page, LeafIndex, body, |cells|, 0);
    forall i | 0 <= i < |cells|
      ensures RawIndexRecordCell(p, i, usable) == Ok(cells[i])
    {
      LeafCellRead(p, cells, i, usable);
    }
  }

  /** Reading an interior page back gives its cells and all its children. */
  lemma {:induction false} InteriorRoundTrip(page: bytes, prefix: bytes, body: nat, children: seq<nat>,
                                             rcells: seq<bytes>, usable: nat)
    requires usable <= 0x1_0000 && |children| == |rcells| + 1 && RecordCells(rcells, usable)
    requires forall j :: 0 <= j < |children| ==> children[j] < 0x1_0000_0000
    requires PageOf(page, prefix, body, INDEX_INTERIOR, WithChildren(children, rcells), usable)
    requires page[body + 8..body + 12] == Be32(children[|rcells|])
    ensures var r := Parse(page, body);
            && r.Ok? && r.value.kind == InteriorIndex && r.value.numCells == |rcells|
            && (forall i :: 0 <= i < |rcells| ==> RawIndexRecordCell(r.value, i, usable) == Ok(rcells[i]))
            && (forall i :: 0 <= i <= |rcells| ==> ChildPointer(r.value, i) == Ok(children[i]))
  {
    var cells, n := WithChildren(children, rcells), |rcells|;
    HeaderRead(page, prefix, body, INDEX_INTERIOR, cells, usable);
    Be32RoundTrip(page, body + 8, children[n]);
    var p := BtreePage(page, InteriorIndex, body, n, children[n]);
    forall i | 0 <= i < n
      ensures RawIndexRecordCell(p, i, usable) == Ok(rcells[i]) && ChildPointer(p, i) == Ok(children[i])
    {
      InteriorCellRead(p, cells, i, children[i], rcells[i], usable);
    }
  }

  // ----- The fits tests of the tree are the writers' success conditions

  function RecordCellsOf(entries: seq<Entry>): (r: seq<bytes>)
    ensures |r| == |entries|
  {
    seq(|entries|, i requires 0 <= i < |entries| => entries[i].cell)
  }

  lemma {:induction false} TotalIsUsed(entries: seq<Entry>, n: nat)
    requires n <= |entries|
    ensures Total(RecordCellsOf(entries), n) + 2 * n == Balance.Prefix(Sizes(entries), n)
  {
    if n > 0 {
      TotalIsUsed(entries, n - 1);
    }
  }

  /** What passes `leaf_fits` is written without error, and nothing else is. */
  lemma {:induction false} LeafFitsIsClear(entries: seq<Entry>, body: nat, usable: nat)
    requires body + 8 <= usable
    ensures LeafFits(entries, body, usable) <==> Clear(RecordCellsOf(entries), body + 8, usable)
  {
    TotalIsUsed(entries, |entries|);
  }

  lemma {:induction false} TotalWithChildren(children: seq<nat>, cells: seq<bytes>, n: nat)
    requires n <= |cells| <= |children| && forall j :: 0 <= j < |children| ==> children[j] < 0x1_0000_0000
    ensures Total(WithChildren(children, cells), n) == Total(cells, n) + 4 * n
  {
    if n > 0 {
      TotalWithChildren(children, cells, n - 1);
      assert WithChildren(children, cells)[n - 1] == WithChild(children[n - 1], cells[n - 1]);
    }
  }

  /** What passes `interior_fits` is written without error, and nothing else is. */
  lemma {:induction false} InteriorFitsIsClear(children: seq<nat>, divs: seq<Entry>, body: nat, usable: nat)
    requires body + 12 <= usable && |children| == |divs| + 1
    requires forall j :: 0 <= j < |children| ==> children[j] < 0x1_0000_0000
    ensures InteriorFits(divs, body, usable)
            <==> Clear(WithChildren(children, RecordCellsOf(divs)), body + 12, usable)
  {
    TotalIsUsed(divs, |divs|);
    TotalWithChildren(children, RecordCellsOf(divs), |divs|);
  }
}
