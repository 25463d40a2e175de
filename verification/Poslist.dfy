/** Position lists: where a term occurs in a document, column by column, as bytes (`detail=full`). */
module Poslist {
  import opened Seqs
  import opened Bytes
  import Varint

  /** One document's entry for a term. A delete marker shadows older entries of the document. */
  datatype Posting = Posting(rowid: int, cols: seq<seq<nat>>, del: bool)

  const TWO_32: nat := 0x1_0000_0000

  // Token positions of 32 bits, in order.
  predicate PositionsOk(ps: seq<nat>) {
    forall i :: 0 <= i < |ps| ==> ps[i] < TWO_32 && (i > 0 ==> ps[i - 1] <= ps[i])
  }

  predicate ColsOk(cols: seq<seq<nat>>) {
    |cols| < TWO_32 && forall c :: 0 <= c < |cols| ==> PositionsOk(cols[c])
  }

  // ----- Writing

  /** One column's positions: each as its distance from the one before, plus two. */
  function Collist(ps: seq<nat>, prev: nat): bytes
    requires PositionsOk(ps) && (ps != [] ==> prev <= ps[0])
    decreases ps
  {
    if ps == [] then []
    else
      PositionsTail(ps);
      Varint.Encode(ps[0] - prev + 2) + Collist(ps[1..], ps[0])
  }

  lemma {:induction false} PositionsTail(ps: seq<nat>)
    requires PositionsOk(ps) && ps != []
    ensures PositionsOk(ps[1..]) && (ps[1..] != [] ==> ps[0] <= ps[1..][0])
  {
    var t := ps[1..];
    assert forall i :: 0 <= i < |t| ==> t[i] == ps[i + 1];
  }

  // A column's part: the marker of its number, unless it is the first, and its positions.
  function ColumnBytes(ps: seq<nat>, c: nat): bytes
    requires PositionsOk(ps) && c < TWO_32
  {
    if ps == [] then [] else (if c == 0 then [] else [1] + Varint.Encode(c)) + Collist(ps, 0)
  }

  function Content(cols: seq<seq<nat>>, c: nat): bytes
    requires ColsOk(cols) && c <= |cols|
    decreases |cols| - c
  {
    if c == |cols| then [] else ColumnBytes(cols[c], c) + Content(cols, c + 1)
  }

  predicate PostingOk(p: Posting) {
    && 0 <= p.rowid < 0x8000_0000_0000_0000 && ColsOk(p.cols)
    && 2 * |Content(p.cols, 0)| + 1 < Varint.TWO_64
  }

  /** The size, with the delete flag in its low bit, and the content. */
  function PoslistBytes(p: Posting): bytes
    requires PostingOk(p)
  {
    var content := Content(p.cols, 0);
    Varint.Encode(2 * |content| + (if p.del then 1 else 0)) + content
  }

  // ----- Reading

  function Pad(cols: seq<seq<nat>>, n: nat): (r: seq<seq<nat>>)
    ensures |r| == if n <= |cols| then |cols| else n
    ensures forall i :: 0 <= i < |r| ==> r[i] == if i < |cols| then cols[i] else []
  {
    if n <= |cols| then cols else cols + seq(n - |cols|, _ => [])
  }

  function Push(cols: seq<seq<nat>>, col: nat, p: nat): (r: seq<seq<nat>>)
    requires col < |cols|
    ensures |r| == |cols|
  {
    cols[col := cols[col] + [p]]
  }

  /** The next position of the current column, or an error when it does not fit. */
  function NextPosition(ps: seq<nat>, raw: nat): Result<nat> {
    if raw < 2 then Corrupt
    else
      var delta := (raw - 2) % TWO_32;
      if ps == [] then Ok(delta)
      else if ps[|ps| - 1] + delta >= TWO_32 then Corrupt
      else Ok(ps[|ps| - 1] + delta)
  }

  // The columns read so far and the one being read.
  datatype State = State(cols: seq<seq<nat>>, col: nat)

  /** Read the `n` bytes of content at the front of `s` into the columns so far. */
  function ReadContent(s: bytes, n: int, x: State): Result<seq<seq<nat>>>
    decreases |s|
  {
    if n <= 0 then Ok(x.cols)
    else if s == [] || x.col >= |x.cols| then Corrupt
    else if s[0] == 1 then
      match Varint.Decode(s[1..])
      case Truncated => Corrupt
      case Decoded(c, len) => ReadContent(s[1 + len..], n - 1 - len, State(Pad(x.cols, c + 1), c))
    else
      match Varint.Decode(s)
      case Truncated => Corrupt
      case Decoded(raw, len) =>
        match NextPosition(x.cols[x.col], raw)
        case Corrupt => Corrupt
        case Ok(p) => ReadContent(s[len..], n - len, State(Push(x.cols, x.col, p), x.col))
  }

  datatype Entry = Entry(cols: seq<seq<nat>>, del: bool, length: nat)

  type ContentReader = (bytes, int, State) -> Result<seq<seq<nat>>>

  // A size with the delete flag in its low bit, then content for `read`.
  function ReadSized(read: ContentReader, s: bytes): (r: Result<Entry>)
    ensures r.Ok? ==> 0 < r.value.length <= |s|
  {
    match Varint.Decode(s)
    case Truncated => Corrupt
    case Decoded(size, len) =>
      if len + size / 2 > |s| then Corrupt
      else
        match read(s[len..], size / 2, State([[]], 0))
        case Corrupt => Corrupt
        case Ok(cols) => Ok(Entry(cols, size % 2 == 1, len + size / 2))
  }

  /** The position list at the front of `s`, with its delete flag. */
  function ReadPoslist(s: bytes): (r: Result<Entry>)
    ensures r.Ok? ==> 0 < r.value.length <= |s|
  {
    ReadSized(ReadContent, s)
  }

  // ----- Round trip

  /** The columns without empty ones at the end, but at least one. */
  function Norm(cols: seq<seq<nat>>, c: nat): (r: seq<seq<nat>>)
    requires c <= |cols|
    ensures 1 <= |r| && (|r| <= c || |r| == 1)
  {
    if c == 0 then [[]]
    else if cols[c - 1] == [] then Norm(cols, c - 1)
    else Pad(Norm(cols, c - 1), c)[c - 1 := cols[c - 1]]
  }

  /** Nothing else is lost: every column is there, or it was empty. */
  lemma {:induction false} NormKeeps(cols: seq<seq<nat>>, c: nat, i: nat)
    requires i < c <= |cols|
    ensures if i < |Norm(cols, c)| then Norm(cols, c)[i] == cols[i] else cols[i] == []
  {
    if i < c - 1 {
      NormKeeps(cols, c - 1, i);
    }
  }

  // A varint of two or more does not start with the byte of a column marker.
  lemma {:induction false} GroupsStart(v: nat, last: byte)
    requires last == 0 || last == 128
    ensures Varint.Groups(v, last) != []
    ensures v >= 128 || last == 128 ==> Varint.Groups(v, last)[0] >= 128
    decreases v
  {
    if v >= 128 {
      GroupsStart(v / 128, 128);
    }
  }

  lemma {:induction false} FixedStart(v: nat, k: nat)
    requires k > 0
    ensures Varint.FixedGroups(v, k) != [] && Varint.FixedGroups(v, k)[0] >= 128
    decreases k
  {
    if k > 1 {
      FixedStart(v / 128, k - 1);
    } else {
      assert Varint.FixedGroups(v / 128, 0) == [];
    }
  }

  lemma {:induction false} EncodeStart(v: nat)
    requires 2 <= v < Varint.TWO_64
    ensures Varint.Encode(v)[0] != 1
  {
    if v < Varint.TWO_56 {
      GroupsStart(v, 0);
    } else {
      FixedStart(v / 256, 8);
    }
  }

  lemma {:induction false} ReadOne(s: bytes, n: int, x: State, raw: nat, len: nat, p: nat, tail: bytes)
    requires x.col < |x.cols| && n > 0 && s != [] && s[0] != 1 && Varint.Decode(s) == Varint.Decoded(raw, len)
    requires NextPosition(x.cols[x.col], raw) == Ok(p) && s[len..] == tail
    ensures ReadContent(s, n, x) == ReadContent(tail, n - len, State(Push(x.cols, x.col, p), x.col))
  {
  }

  lemma {:induction false} ReadMarker(s: bytes, n: int, x: State, c: nat, len: nat, tail: bytes)
    requires x.col < |x.cols| && n > 0 && s != [] && s[0] == 1 && Varint.Decode(s[1..]) == Varint.Decoded(c, len)
    requires s[1 + len..] == tail
    ensures ReadContent(s, n, x) == ReadContent(tail, n - 1 - len, State(Pad(x.cols, c + 1), c))
  {
  }

  // The column being read is empty, or `prev` is its last position.
  predicate Follows(ps: seq<nat>, prev: nat) {
    if ps == [] then prev == 0 else ps[|ps| - 1] == prev
  }

  /** Reading the bytes `b`, whatever follows them, leads from one state to the next. */
  ghost predicate Reads(read: ContentReader, b: bytes, x: State, y: State) {
    forall rest: bytes, n: int :: n >= |b| ==> read(b + rest, n, x) == read(rest, n - |b|, y)
  }

  lemma {:induction false} ReadsNothing(read: ContentReader, x: State)
    ensures Reads(read, [], x, x)
  {
    var none: bytes := [];
    forall rest: bytes, n: int | n >= |none|
      ensures read(none + rest, n, x) == read(rest, n - |none|, x)
    {
      assert none + rest == rest;
    }
  }

  lemma {:induction false} ReadsBoth(read: ContentReader, a: bytes, b: bytes, x: State, y: State, z: State)
    requires Reads(read, a, x, y) && Reads(read, b, y, z)
    ensures Reads(read, a + b, x, z)
  {
    var ab := a + b;
    forall rest: bytes, n: int | n >= |ab|
      ensures read(ab + rest, n, x) == read(rest, n - |ab|, z)
    {
      Assoc(a, b, rest);
      assert read(a + (b + rest), n, x) == read(b + rest, n - |a|, y);
    }
  }

  lemma {:induction false} RawReads(e: bytes, raw: nat, p: nat, x: State)
    requires Varint.IsVarint(e, raw) && e[0] != 1 && x.col < |x.cols| && NextPosition(x.cols[x.col], raw) == Ok(p)
    ensures Reads(ReadContent, e, x, State(Push(x.cols, x.col, p), x.col))
  {
    var y := State(Push(x.cols, x.col, p), x.col);
    forall rest: bytes, n: int | n >= |e|
      ensures ReadContent(e + rest, n, x) == ReadContent(rest, n - |e|, y)
    {
      TailOf(e, rest);
      ReadOne(e + rest, n, x, raw, |e|, p, rest);
    }
  }

  lemma {:induction false} PositionReads(p: nat, prev: nat, x: State)
    requires x.col < |x.cols| && prev <= p < TWO_32 && Follows(x.cols[x.col], prev)
    ensures Reads(ReadContent, Varint.Encode(p - prev + 2), x, State(Push(x.cols, x.col, p), x.col))
  {
    EncodeStart(p - prev + 2);
    Varint.EncodeIsVarint(p - prev + 2);
    RawReads(Varint.Encode(p - prev + 2), p - prev + 2, p, x);
  }

  // `b` is a marker byte and then `e`.
  ghost predicate IsMark(b: bytes, e: bytes) {
    && |b| == 1 + |e|
    && forall t: bytes {:trigger b + t} :: (b + t)[0] == 1 && (b + t)[1..] == e + t && (b + t)[1 + |e|..] == t
  }

  lemma {:induction false} MarkReads(b: bytes, e: bytes, c: nat, x: State)
    requires IsMark(b, e) && Varint.IsVarint(e, c) && x.col < |x.cols|
    ensures Reads(ReadContent, b, x, State(Pad(x.cols, c + 1), c))
  {
    var y := State(Pad(x.cols, c + 1), c);
    forall rest: bytes, n: int | n >= |b|
      ensures ReadContent(b + rest, n, x) == ReadContent(rest, n - |b|, y)
    {
      assert Varint.Decode(e + rest) == Varint.Decoded(c, |e|);
      ReadMarker(b + rest, n, x, c, |e|, rest);
    }
  }

  lemma {:induction false} MarkBytes(e: bytes)
    ensures IsMark([1] + e, e)
  {
    var b := [1] + e;
    forall t: bytes
      ensures (b + t)[0] == 1 && (b + t)[1..] == e + t && (b + t)[1 + |e|..] == t
    {
    }
  }

  lemma {:induction false} MarkerReads(c: nat, x: State)
    requires x.col < |x.cols| && c < TWO_32
    ensures Reads(ReadContent, [1] + Varint.Encode(c), x, State(Pad(x.cols, c + 1), c))
  {
    Varint.EncodeIsVarint(c);
    MarkBytes(Varint.Encode(c));
    MarkReads([1] + Varint.Encode(c), Varint.Encode(c), c, x);
  }

  function WithColumn(x: State, ps: seq<nat>): State
    requires x.col < |x.cols|
  {
    State(x.cols[x.col := x.cols[x.col] + ps], x.col)
  }

  lemma {:induction false} WithNothing(x: State)
    requires x.col < |x.cols|
    ensures WithColumn(x, []) == x
  {
    assert x.cols[x.col] + [] == x.cols[x.col];
  }

  lemma {:induction false} WithOneFirst(x: State, ps: seq<nat>)
    requires x.col < |x.cols| && ps != []
    ensures WithColumn(State(Push(x.cols, x.col, ps[0]), x.col), ps[1..]) == WithColumn(x, ps)
  {
    assert (x.cols[x.col] + [ps[0]]) + ps[1..] == x.cols[x.col] + ps;
  }

  lemma {:induction false} CollistReads(ps: seq<nat>, prev: nat, x: State)
    requires PositionsOk(ps) && (ps != [] ==> prev <= ps[0]) && x.col < |x.cols| && Follows(x.cols[x.col], prev)
    ensures Reads(ReadContent, Collist(ps, prev), x, WithColumn(x, ps))
    decreases ps
  {
    if ps == [] {
      ReadsNothing(ReadContent, x);
      WithNothing(x);
    } else {
      PositionsTail(ps);
      var y := State(Push(x.cols, x.col, ps[0]), x.col);
      PositionReads(ps[0], prev, x);
      CollistReads(ps[1..], ps[0], y);
      CollistStep(ReadContent, Varint.Encode(ps[0] - prev + 2), Collist(ps[1..], ps[0]), ps, x, y);
    }
  }

  lemma {:induction false} CollistStep(read: ContentReader, e: bytes, more: bytes, ps: seq<nat>, x: State, y: State)
    requires x.col < |x.cols| && ps != [] && y == State(Push(x.cols, x.col, ps[0]), x.col)
    requires Reads(read, e, x, y) && Reads(read, more, y, WithColumn(y, ps[1..]))
    ensures Reads(read, e + more, x, WithColumn(x, ps))
  {
    WithOneFirst(x, ps);
    ReadsBoth(read, e, more, x, y, WithColumn(x, ps));
  }

  // A column's part puts its positions after the columns before it.
  lemma {:induction false} ColumnReads(ps: seq<nat>, c: nat, x: State)
    requires PositionsOk(ps) && ps != [] && c < TWO_32 && x.col < |x.cols|
    requires if c == 0 then x == State([[]], 0) else |x.cols| <= c
    ensures Reads(ReadContent, ColumnBytes(ps, c), x, State(Pad(x.cols, c + 1)[c := ps], c))
  {
    var y := State(Pad(x.cols, c + 1), c);
    CollistReads(ps, 0, y);
    assert y.cols[c] + ps == ps;
    if c == 0 {
      assert y == x && [] + Collist(ps, 0) == Collist(ps, 0);
    } else {
      MarkerReads(c, x);
      ReadsBoth(ReadContent, [1] + Varint.Encode(c), Collist(ps, 0), x, y, State(y.cols[c := ps], c));
    }
  }

  lemma {:induction false} NormNext(cols: seq<seq<nat>>, c: nat)
    requires c < |cols| && cols[c] != []
    ensures c < |Norm(cols, c + 1)| && Norm(cols, c + 1) == Pad(Norm(cols, c), c + 1)[c := cols[c]]
  {
  }

  // The state before column `c` is read.
  function ColAt(cols: seq<seq<nat>>, c: nat): (r: nat)
    requires c <= |cols|
    ensures r < |Norm(cols, c)|
  {
    if c == 0 then 0 else if cols[c - 1] == [] then ColAt(cols, c - 1) else c - 1
  }

  function StateAt(cols: seq<seq<nat>>, c: nat): State
    requires c <= |cols|
  {
    State(Norm(cols, c), ColAt(cols, c))
  }

  ghost predicate ReadsColumn(read: ContentReader, cols: seq<seq<nat>>, c: nat)
    requires ColsOk(cols) && c < |cols|
  {
    Reads(read, ColumnBytes(cols[c], c), StateAt(cols, c), StateAt(cols, c + 1))
  }

  lemma {:induction false} ColumnStep(cols: seq<seq<nat>>, c: nat)
    requires ColsOk(cols) && c < |cols|
    ensures ReadsColumn(ReadContent, cols, c)
  {
    if cols[c] == [] {
      ReadsNothing(ReadContent, StateAt(cols, c));
    } else {
      ColumnReads(cols[c], c, StateAt(cols, c));
      NormNext(cols, c);
    }
  }

  lemma {:induction false} ContentReads(read: ContentReader, cols: seq<seq<nat>>, c: nat)
    requires ColsOk(cols) && c <= |cols|
    requires forall d {:trigger ReadsColumn(read, cols, d)} :: 0 <= d < |cols| ==> ReadsColumn(read, cols, d)
    ensures Reads(read, Content(cols, c), StateAt(cols, c), StateAt(cols, |cols|))
    decreases |cols| - c
  {
    if c == |cols| {
      ReadsNothing(read, StateAt(cols, c));
    } else {
      ContentReads(read, cols, c + 1);
      assert ReadsColumn(read, cols, c);
      ReadsBoth(read, ColumnBytes(cols[c], c), Content(cols, c + 1), StateAt(cols, c), StateAt(cols, c + 1),
                StateAt(cols, |cols|));
    }
  }

  lemma {:induction false} AllContentReads(cols: seq<seq<nat>>)
    requires ColsOk(cols)
    ensures Reads(ReadContent, Content(cols, 0), State([[]], 0), StateAt(cols, |cols|))
  {
    forall d | 0 <= d < |cols|
      ensures ReadsColumn(ReadContent, cols, d)
    {
      ColumnStep(cols, d);
    }
    ContentReads(ReadContent, cols, 0);
  }

  lemma {:induction false} SizeReads(size: nat, tail: bytes)
    requires size < Varint.TWO_64
    ensures var e := Varint.Encode(size);
            Varint.Decode(e + tail) == Varint.Decoded(size, |e|) && (e + tail)[|e|..] == tail
  {
    Varint.RoundTrip(size, tail);
    TailOf(Varint.Encode(size), tail);
  }

  lemma {:induction false} ReadSizedIs(read: ContentReader, s: bytes, size: nat, len: nat, cols: seq<seq<nat>>,
                                       tail: bytes)
    requires Varint.Decode(s) == Varint.Decoded(size, len) && len + size / 2 <= |s|
    requires s[len..] == tail && read(tail, size / 2, State([[]], 0)) == Ok(cols)
    ensures ReadSized(read, s) == Ok(Entry(cols, size % 2 == 1, len + size / 2))
  {
  }

  // Content that is read as `y`, after its size.
  lemma {:induction false} SizedReads(read: ContentReader, content: bytes, size: nat, y: State, b: bytes, rest: bytes)
    requires size / 2 == |content| && size < Varint.TWO_64 && Reads(read, content, State([[]], 0), y)
    requires read(rest, 0, y) == Ok(y.cols) && b == Varint.Encode(size) + content
    ensures ReadSized(read, b + rest) == Ok(Entry(y.cols, size % 2 == 1, |b|))
  {
    var e, tail := Varint.Encode(size), content + rest;
    SizeReads(size, tail);
    Assoc(e, content, rest);
    assert read(content + rest, |content|, State([[]], 0)) == read(rest, |content| - |content|, y);
    ReadSizedIs(read, e + tail, size, |e|, y.cols, tail);
  }

  // The size of a posting's content, with the delete flag.
  function SizeField(p: Posting): nat
    requires PostingOk(p)
  {
    2 * |Content(p.cols, 0)| + (if p.del then 1 else 0)
  }

  lemma {:induction false} SizeFieldIs(p: Posting)
    requires PostingOk(p)
    ensures SizeField(p) / 2 == |Content(p.cols, 0)| && SizeField(p) < Varint.TWO_64
    ensures (SizeField(p) % 2 == 1 <==> p.del)
    ensures PoslistBytes(p) == Varint.Encode(SizeField(p)) + Content(p.cols, 0)
  {
  }

  /** Every posting's position list is read back, and exactly its bytes are consumed. */
  lemma {:induction false} PoslistReadsBack(p: Posting, rest: bytes)
    requires PostingOk(p)
    ensures ReadPoslist(PoslistBytes(p) + rest) == Ok(Entry(Norm(p.cols, |p.cols|), p.del, |PoslistBytes(p)|))
  {
    AllContentReads(p.cols);
    SizeFieldIs(p);
    SizedReads(ReadContent, Content(p.cols, 0), SizeField(p), StateAt(p.cols, |p.cols|), PoslistBytes(p), rest);
  }

  // ----- The loops of the writer and of the reader

  lemma {:induction false} PositionsFrom(ps: seq<nat>, i: nat)
    requires PositionsOk(ps) && i <= |ps|
    ensures PositionsOk(ps[i..]) && (i < |ps| ==> ps[i..] != [] && ps[i..][0] == ps[i] && ps[i..][1..] == ps[i + 1..])
  {
    var t := ps[i..];
    assert forall j :: 0 <= j < |t| ==> t[j] == ps[i + j];
  }

  // What is written, and what is still to be written from position `i` on, make up `all`.
  ghost predicate Writing(out: bytes, ps: seq<nat>, prev: nat, all: bytes) {
    PositionsOk(ps) && (ps != [] ==> prev <= ps[0]) && out + Collist(ps, prev) == all
  }

  lemma {:induction false} WritingStep(out: bytes, ps: seq<nat>, prev: nat, all: bytes)
    requires Writing(out, ps, prev, all) && ps != []
    ensures Writing(out + Varint.Encode(ps[0] - prev + 2), ps[1..], ps[0], all)
  {
    PositionsTail(ps);
    Assoc(out, Varint.Encode(ps[0] - prev + 2), Collist(ps[1..], ps[0]));
  }

  method WriteCollist(ps: seq<nat>) returns (out: bytes)
    requires PositionsOk(ps)
    ensures out == Collist(ps, 0)
  {
    out := [];
    var prev := 0;
    assert ps[0..] == ps;
    for i := 0 to |ps|
      invariant Writing(out, ps[i..], prev, Collist(ps, 0))
    {
      PositionsFrom(ps, i);
      WritingStep(out, ps[i..], prev, Collist(ps, 0));
      out := out + Varint.Encode(ps[i] - prev + 2);
      prev := ps[i];
    }
    assert ps[|ps|..] == [];
    assert out + [] == out;
  }

  method WriteColumn(ps: seq<nat>, c: nat) returns (out: bytes)
    requires PositionsOk(ps) && c < TWO_32
    ensures out == ColumnBytes(ps, c)
  {
    if ps == [] {
      return [];
    }
    var list := WriteCollist(ps);
    out := (if c == 0 then [] else [1] + Varint.Encode(c)) + list;
  }

  lemma {:induction false} ContentStep(front: bytes, cols: seq<seq<nat>>, c: nat, all: bytes)
    requires ColsOk(cols) && c < |cols| && WritesContent(front, cols, c, all)
    ensures WritesContent(front + ColumnBytes(cols[c], c), cols, c + 1, all)
  {
    Assoc(front, ColumnBytes(cols[c], c), Content(cols, c + 1));
  }

  method WriteContent(cols: seq<seq<nat>>) returns (content: bytes)
    requires ColsOk(cols)
    ensures content == Content(cols, 0)
  {
    content := [];
    ghost var all := Content(cols, 0);
    for c := 0 to |cols|
      invariant WritesContent(content, cols, c, all)
    {
      ContentStep(content, cols, c, all);
      var b := WriteColumn(cols[c], c);
      content := content + b;
    }
    ContentEnd(content, cols, all);
  }

  ghost predicate WritesContent(front: bytes, cols: seq<seq<nat>>, c: nat, all: bytes)
    requires ColsOk(cols)
  {
    c <= |cols| && front + Content(cols, c) == all
  }

  lemma {:induction false} ContentEnd(front: bytes, cols: seq<seq<nat>>, all: bytes)
    requires ColsOk(cols) && WritesContent(front, cols, |cols|, all)
    ensures front == all
  {
    assert front + [] == front;
  }

  /** Write a posting's position list. */
  method WritePoslist(p: Posting) returns (out: bytes)
    requires PostingOk(p)
    ensures out == PoslistBytes(p)
  {
    var content := WriteContent(p.cols);
    out := Varint.Encode(2 * |content| + (if p.del then 1 else 0)) + content;
  }

  /** Read a position list, keeping its delete flag. */
  method DecodePoslist(s: bytes) returns (r: Result<Entry>)
    ensures r == ReadPoslist(s)
  {
    var d := Varint.Decode(s);
    if d.Truncated? {
      return Corrupt;
    }
    var length := d.value / 2;
    if d.length + length > |s| {
      return Corrupt;
    }
    var cols := DecodeContent(s[d.length..], length);
    if cols.Corrupt? {
      return Corrupt;
    }
    return Ok(Entry(cols.value, d.value % 2 == 1, d.length + length));
  }

  datatype Left = Left(rest: bytes, n: int, x: State)

  // After a column marker, and after a position.
  function AfterMarker(l: Left, c: nat, len: nat): Left
    requires 1 + len <= |l.rest|
  {
    Left(l.rest[1 + len..], l.n - 1 - len, State(Pad(l.x.cols, c + 1), c))
  }

  function AfterPosition(l: Left, p: nat, len: nat): Left
    requires len <= |l.rest| && l.x.col < |l.x.cols|
  {
    Left(l.rest[len..], l.n - len, State(Push(l.x.cols, l.x.col, p), l.x.col))
  }

  // One marker or position.
  method DecodeStep(l: Left) returns (r: Result<Left>)
    requires l.n > 0 && l.x.col < |l.x.cols|
    ensures r.Corrupt? ==> Outcome(l) == Corrupt
    ensures r.Ok? ==> |r.value.rest| < |l.rest| && r.value.x.col < |r.value.x.cols| && Outcome(l) == Outcome(r.value)
  {
    if l.rest == [] {
      return Corrupt;
    }
    if l.rest[0] == 1 {
      r := DecodeMarker(l);
    } else {
      r := DecodePosition(l);
    }
  }

  method DecodeMarker(l: Left) returns (r: Result<Left>)
    requires l.n > 0 && l.x.col < |l.x.cols| && l.rest != [] && l.rest[0] == 1
    ensures r.Corrupt? ==> Outcome(l) == Corrupt
    ensures r.Ok? ==> |r.value.rest| < |l.rest| && r.value.x.col < |r.value.x.cols| && Outcome(l) == Outcome(r.value)
  {
    var d := Varint.Decode(l.rest[1..]);
    if d.Truncated? {
      return Corrupt;
    }
    ReadMarker(l.rest, l.n, l.x, d.value, d.length, l.rest[1 + d.length..]);
    return Ok(AfterMarker(l, d.value, d.length));
  }

  method DecodePosition(l: Left) returns (r: Result<Left>)
    requires l.n > 0 && l.x.col < |l.x.cols| && l.rest != [] && l.rest[0] != 1
    ensures r.Corrupt? ==> Outcome(l) == Corrupt
    ensures r.Ok? ==> |r.value.rest| < |l.rest| && r.value.x.col < |r.value.x.cols| && Outcome(l) == Outcome(r.value)
  {
    var d := Varint.Decode(l.rest);
    if d.Truncated? {
      return Corrupt;
    }
    var p := NextPosition(l.x.cols[l.x.col], d.value);
    if p.Corrupt? {
      return Corrupt;
    }
    ReadOne(l.rest, l.n, l.x, d.value, d.length, p.value, l.rest[d.length..]);
    return Ok(AfterPosition(l, p.value, d.length));
  }

  ghost function Outcome(l: Left): Result<seq<seq<nat>>> {
    ReadContent(l.rest, l.n, l.x)
  }

  method DecodeContent(s: bytes, length: nat) returns (r: Result<seq<seq<nat>>>)
    ensures r == ReadContent(s, length, State([[]], 0))
  {
    var l := Left(s, length, State([[]], 0));
    ghost var goal := Outcome(l);
    while l.n > 0
      invariant l.x.col < |l.x.cols| && Outcome(l) == goal
      decreases |l.rest|
    {
      var next := DecodeStep(l);
      if next.Corrupt? {
        return Corrupt;
      }
      l := next.value;
    }
    return Ok(l.x.cols);
  }

  // ----- Position lists are whole varints

  lemma {:induction false} EncodeKeeps(v: nat)
    requires v < Varint.TWO_64
    ensures Varint.Keeps(Varint.Whole, Varint.Encode(v))
  {
    Varint.EncodeIsVarint(v);
    Varint.VarintKeeps(Varint.Encode(v), v);
  }

  lemma {:induction false} CollistWhole(ps: seq<nat>, prev: nat)
    requires PositionsOk(ps) && (ps != [] ==> prev <= ps[0])
    ensures Varint.Keeps(Varint.Whole, Collist(ps, prev))
    decreases ps
  {
    if ps == [] {
      Varint.KeepsNothing(Varint.Whole);
    } else {
      PositionsTail(ps);
      CollistWhole(ps[1..], ps[0]);
      EncodeKeeps(ps[0] - prev + 2);
      Varint.KeepsBoth(Varint.Whole, Varint.Encode(ps[0] - prev + 2), Collist(ps[1..], ps[0]));
    }
  }

  lemma {:induction false} MarkerWhole(c: nat)
    requires c < TWO_32
    ensures Varint.Keeps(Varint.Whole, [1] + Varint.Encode(c))
  {
    assert Varint.Encode(1) == [1];
    EncodeKeeps(1);
    EncodeKeeps(c);
    Varint.KeepsBoth(Varint.Whole, [1], Varint.Encode(c));
  }

  lemma {:induction false} ColumnWhole(ps: seq<nat>, c: nat)
    requires PositionsOk(ps) && c < TWO_32
    ensures Varint.Keeps(Varint.Whole, ColumnBytes(ps, c))
  {
    if ps == [] {
      Varint.KeepsNothing(Varint.Whole);
    } else {
      CollistWhole(ps, 0);
      if c == 0 {
        assert [] + Collist(ps, 0) == Collist(ps, 0);
      } else {
        MarkerWhole(c);
        Varint.KeepsBoth(Varint.Whole, [1] + Varint.Encode(c), Collist(ps, 0));
      }
    }
  }

  lemma {:induction false} ContentKeeps(cols: seq<seq<nat>>, c: nat)
    requires ColsOk(cols) && c <= |cols|
    ensures Varint.Keeps(Varint.Whole, Content(cols, c))
    decreases |cols| - c
  {
    if c == |cols| {
      Varint.KeepsNothing(Varint.Whole);
    } else {
      ContentKeeps(cols, c + 1);
      ColumnWhole(cols[c], c);
      Varint.KeepsBoth(Varint.Whole, ColumnBytes(cols[c], c), Content(cols, c + 1));
    }
  }

  /** The content of a position list can be cut between varints. */
  lemma {:induction false} ContentWhole(cols: seq<seq<nat>>)
    requires ColsOk(cols)
    ensures Varint.Whole(Content(cols, 0))
  {
    ContentKeeps(cols, 0);
    Varint.KeepsAll(Content(cols, 0));
  }
}
