/** Leaf pages of a full-text segment: a header of two offsets, doclist bytes and prefix-compressed
    term records, and a footer with the offsets of the records. */
module SegLeaf {
  import opened Seqs
  import opened Bytes
  import opened BigEndian
  import Varint

  /** A term record on a leaf and the part of its doclist that follows it there. */
  datatype Part = Part(key: bytes, doc: bytes)

  /** The content of a leaf: bytes that continue an entry of the leaf before; if `abs`, entries that
      resume with an absolute rowid; then the terms that start here. */
  datatype Leaf = Leaf(pre: bytes, abs: bool, post: bytes, parts: seq<Part>)

  // ----- Writing

  /** How many leading bytes two keys share. */
  function Common(a: bytes, b: bytes): (n: nat)
    ensures n <= |a| && n <= |b| && a[..n] == b[..n]
    ensures n < |a| && n < |b| ==> a[n] != b[n]
  {
    if a == [] || b == [] || a[0] != b[0] then 0
    else
      var n := Common(a[1..], b[1..]);
      assert a[..n + 1] == [a[0]] + a[1..][..n] && b[..n + 1] == [b[0]] + b[1..][..n];
      n + 1
  }

  predicate KeyOk(key: bytes) {
    0 < |key| < Varint.TWO_64
  }

  /** A record: the first key of a leaf in full, later ones without what they share with the one before. */
  function TermRecord(prev: Option<bytes>, key: bytes): (r: bytes)
    requires KeyOk(key)
    ensures r != []
  {
    match prev
    case None => Varint.Encode(|key|) + key
    case Some(p) =>
      var n := Common(key, p);
      Varint.Encode(n) + Varint.Encode(|key| - n) + key[n..]
  }

  predicate KeysOk(parts: seq<Part>) {
    forall i :: 0 <= i < |parts| ==> KeyOk(parts[i].key)
  }

  // A record and the doclist bytes after it.
  datatype Chunk = Chunk(rec: bytes, doc: bytes)

  function Chunks(parts: seq<Part>, prev: Option<bytes>): (r: seq<Chunk>)
    requires KeysOk(parts)
    ensures |r| == |parts| && ChunksOk(r)
    decreases parts
  {
    if parts == [] then []
    else [Chunk(TermRecord(prev, parts[0].key), parts[0].doc)] + Chunks(parts[1..], Some(parts[0].key))
  }

  predicate ChunksOk(cs: seq<Chunk>) {
    forall i :: 0 <= i < |cs| ==> cs[i].rec != []
  }

  function Cat(cs: seq<Chunk>): bytes {
    if cs == [] then [] else cs[0].rec + cs[0].doc + Cat(cs[1..])
  }

  // Where the records start, the first of them at `at`.
  function Offsets(cs: seq<Chunk>, at: nat): (r: seq<nat>)
    ensures |r| == |cs|
    decreases cs
  {
    if cs == [] then [] else [at] + Offsets(cs[1..], at + |cs[0].rec| + |cs[0].doc|)
  }

  // Offsets as distances from the one before.
  function Pgidx(offs: seq<nat>, prev: nat): bytes
    requires Rising(offs, prev)
    decreases offs
  {
    if offs == [] then [] else Varint.Encode(offs[0] - prev) + Pgidx(offs[1..], offs[0])
  }

  predicate Rising(offs: seq<nat>, prev: nat)
    decreases offs
  {
    offs == [] || (prev <= offs[0] < 0x1_0000 && Rising(offs[1..], offs[0]))
  }

  function Lead(l: Leaf): bytes {
    l.pre + l.post
  }

  function Body(l: Leaf): bytes
    requires KeysOk(l.parts)
  {
    Lead(l) + Cat(Chunks(l.parts, None))
  }

  function FirstRowid(l: Leaf): nat {
    if l.abs then 4 + |l.pre| else 0
  }

  /** Small enough for the two-byte offsets. */
  predicate LeafOk(l: Leaf) {
    KeysOk(l.parts) && (!l.abs ==> l.post == []) && 4 + |Body(l)| < 0x1_0000
  }

  function TermOffsets(l: Leaf): seq<nat>
    requires KeysOk(l.parts)
  {
    Offsets(Chunks(l.parts, None), 4 + |Lead(l)|)
  }

  lemma {:induction false} RisingCons(at: nat, rest: seq<nat>, low: nat)
    requires low <= at < 0x1_0000 && Rising(rest, at)
    ensures Rising([at] + rest, low)
  {
    assert ([at] + rest)[1..] == rest;
  }

  ghost predicate Within(offs: seq<nat>, from: nat, to: nat) {
    forall i :: 0 <= i < |offs| ==> from <= offs[i] < to
  }

  lemma {:induction false} WithinCons(at: nat, rest: seq<nat>, next: nat, to: nat)
    requires at < next <= to && Within(rest, next, to)
    ensures Within([at] + rest, at, to)
  {
  }

  lemma {:induction false} OffsetsRise(cs: seq<Chunk>, at: nat, low: nat)
    requires ChunksOk(cs) && low <= at && at + |Cat(cs)| < 0x1_0000
    ensures Rising(Offsets(cs, at), low) && Within(Offsets(cs, at), at, at + |Cat(cs)|)
    decreases cs
  {
    if cs != [] {
      var next := at + |cs[0].rec| + |cs[0].doc|;
      OffsetsRise(cs[1..], next, at);
      RisingCons(at, Offsets(cs[1..], next), low);
      WithinCons(at, Offsets(cs[1..], next), next, at + |Cat(cs)|);
    }
  }

  /** The bytes of a leaf. */
  function LeafBytes(l: Leaf): bytes
    requires LeafOk(l)
  {
    OffsetsRise(Chunks(l.parts, None), 4 + |Lead(l)|, 0);
    Be16(FirstRowid(l)) + Be16(4 + |Body(l)|) + Body(l) + Pgidx(TermOffsets(l), 0)
  }

  // ----- Reading

  datatype TermRec = TermRec(key: bytes, start: nat, doc: nat)

  datatype View = View(first: nat, footer: nat, terms: seq<TermRec>)

  /** The offsets in the footer. */
  function ReadOffsets(s: bytes, prev: nat, footer: nat): Result<seq<nat>>
    decreases |s|
  {
    if s == [] then Ok([])
    else
      match Varint.Decode(s)
      case Truncated => Corrupt
      case Decoded(d, n) =>
        if prev + d >= footer || prev + d < 4 then Corrupt
        else
          match ReadOffsets(s[n..], prev + d, footer)
          case Corrupt => Corrupt
          case Ok(rest) => Ok([prev + d] + rest)
  }

  // The record at the front of `s`: how much of the key before it keeps, what it adds, and its length.
  datatype RawTerm = RawTerm(keep: nat, suffix: bytes, length: nat)

  function ReadFirst(s: bytes): Result<RawTerm> {
    match Varint.Decode(s)
    case Truncated => Corrupt
    case Decoded(k, n) => if n + k > |s| then Corrupt else Ok(RawTerm(0, s[n..n + k], n + k))
  }

  function ReadLater(s: bytes): Result<RawTerm> {
    match Varint.Decode(s)
    case Truncated => Corrupt
    case Decoded(c, n) =>
      match Varint.Decode(s[n..])
      case Truncated => Corrupt
      case Decoded(k, m) => if n + m + k > |s| then Corrupt else Ok(RawTerm(c, s[n + m..n + m + k], n + m + k))
  }

  function ReadRaw(s: bytes, prev: Option<bytes>): Result<RawTerm> {
    if prev.None? then ReadFirst(s) else ReadLater(s)
  }

  /** The record at offset `off` of a leaf. */
  function ReadTerm(leaf: bytes, footer: nat, off: nat, prev: Option<bytes>): Result<TermRec>
    requires off <= |leaf|
  {
    match ReadRaw(leaf[off..], prev)
    case Corrupt => Corrupt
    case Ok(raw) =>
      if off + raw.length > footer || (prev.Some? && raw.keep > |prev.value|) then Corrupt
      else
        var front := if prev.None? then [] else prev.value[..raw.keep];
        Ok(TermRec(front + raw.suffix, off, off + raw.length))
  }

  type TermReader = (nat, Option<bytes>) -> Result<TermRec>

  // The records at these offsets, each after the key before it.
  function ReadEach(read: TermReader, offs: seq<nat>, prev: Option<bytes>): Result<seq<TermRec>>
    decreases offs
  {
    if offs == [] then Ok([])
    else
      match read(offs[0], prev)
      case Corrupt => Corrupt
      case Ok(t) =>
        match ReadEach(read, offs[1..], Some(t.key))
        case Corrupt => Corrupt
        case Ok(rest) => Ok([t] + rest)
  }

  function ReaderOf(leaf: bytes, footer: nat): TermReader {
    (off: nat, prev: Option<bytes>) => if off > |leaf| then Corrupt else ReadTerm(leaf, footer, off, prev)
  }

  function ReadTerms(leaf: bytes, footer: nat, offs: seq<nat>): Result<seq<TermRec>> {
    ReadEach(ReaderOf(leaf, footer), offs, None)
  }

  /** A leaf page taken apart. */
  function ParseLeaf(leaf: bytes): Result<View> {
    if |leaf| < 4 then Corrupt
    else
      var first, footer := Get16(leaf, 0), Get16(leaf, 2);
      if footer < 4 || footer > |leaf| || (first != 0 && (first < 4 || first > footer)) then Corrupt
      else
        match ReadOffsets(leaf[footer..], 0, footer)
        case Corrupt => Corrupt
        case Ok(offs) =>
          match ReadTerms(leaf, footer, offs)
          case Corrupt => Corrupt
          case Ok(terms) => Ok(View(first, footer, terms))
  }

  // ----- Round trip

  lemma {:induction false} OffsetStep(e: bytes, tail: bytes, prev: nat, d: nat, footer: nat, offs: seq<nat>)
    requires Varint.IsVarint(e, d) && 4 <= prev + d < footer && ReadOffsets(tail, prev + d, footer) == Ok(offs)
    ensures ReadOffsets(e + tail, prev, footer) == Ok([prev + d] + offs)
  {
    assert Varint.Decode(e + tail) == Varint.Decoded(d, |e|);
    assert (e + tail)[|e|..] == tail;
  }

  lemma {:induction false} FooterReads(offs: seq<nat>, prev: nat, footer: nat)
    requires Rising(offs, prev) && Within(offs, 4, footer)
    ensures ReadOffsets(Pgidx(offs, prev), prev, footer) == Ok(offs)
    decreases offs
  {
    if offs != [] {
      FooterReads(offs[1..], offs[0], footer);
      Varint.EncodeIsVarint(offs[0] - prev);
      OffsetStep(Varint.Encode(offs[0] - prev), Pgidx(offs[1..], offs[0]), prev, offs[0] - prev, footer, offs[1..]);
      assert offs == [offs[0]] + offs[1..];
    }
  }

  lemma {:induction false} FirstReads(e: bytes, key: bytes, tail: bytes)
    requires Varint.IsVarint(e, |key|)
    ensures ReadFirst(e + (key + tail)) == Ok(RawTerm(0, key, |e| + |key|))
  {
    var s := e + (key + tail);
    assert Varint.Decode(s) == Varint.Decoded(|key|, |e|);
    assert s[|e|..|e| + |key|] == key;
  }

  lemma {:induction false} LaterReads(e: bytes, f: bytes, keep: nat, suffix: bytes, tail: bytes)
    requires Varint.IsVarint(e, keep) && Varint.IsVarint(f, |suffix|)
    ensures ReadLater(e + (f + (suffix + tail))) == Ok(RawTerm(keep, suffix, |e| + |f| + |suffix|))
  {
    var s := e + (f + (suffix + tail));
    assert Varint.Decode(s) == Varint.Decoded(keep, |e|);
    assert s[|e|..] == f + (suffix + tail);
    assert Varint.Decode(f + (suffix + tail)) == Varint.Decoded(|suffix|, |f|);
    assert s[|e| + |f|..|e| + |f| + |suffix|] == suffix;
  }

  // What the record of `key` says.
  function RawFor(prev: Option<bytes>, key: bytes, length: nat): RawTerm {
    match prev
    case None => RawTerm(0, key, length)
    case Some(p) => RawTerm(Common(key, p), key[Common(key, p)..], length)
  }

  /** Whatever follows, the record `rec` after the key `prev` is read as that of `key`. */
  ghost predicate RecordReads(rec: bytes, prev: Option<bytes>, key: bytes) {
    forall tail: bytes :: ReadRaw(rec + tail, prev) == Ok(RawFor(prev, key, |rec|))
  }

  lemma {:induction false} FirstRecord(e: bytes, key: bytes, rec: bytes)
    requires Varint.IsVarint(e, |key|) && rec == e + key
    ensures RecordReads(rec, None, key)
  {
    forall tail: bytes
      ensures ReadRaw(rec + tail, None) == Ok(RawTerm(0, key, |rec|))
    {
      Assoc(e, key, tail);
      FirstReads(e, key, tail);
    }
  }

  lemma {:induction false} LaterRecord(e: bytes, f: bytes, n: nat, prev: bytes, key: bytes, rec: bytes)
    requires n == Common(key, prev) && Varint.IsVarint(e, n) && Varint.IsVarint(f, |key| - n) && rec == e + f + key[n..]
    ensures RecordReads(rec, Some(prev), key)
  {
    var suffix := key[n..];
    forall tail: bytes
      ensures ReadRaw(rec + tail, Some(prev)) == Ok(RawTerm(n, suffix, |rec|))
    {
      Assoc(e + f, suffix, tail);
      Assoc(e, f, suffix + tail);
      LaterReads(e, f, n, suffix, tail);
    }
  }

  /** Every record that is written is read back. */
  lemma {:induction false} TermRecordReads(prev: Option<bytes>, key: bytes)
    requires KeyOk(key)
    ensures RecordReads(TermRecord(prev, key), prev, key)
  {
    match prev
    case None =>
      Varint.EncodeIsVarint(|key|);
      FirstRecord(Varint.Encode(|key|), key, TermRecord(prev, key));
    case Some(p) =>
      var n := Common(key, p);
      Varint.EncodeIsVarint(n);
      Varint.EncodeIsVarint(|key| - n);
      LaterRecord(Varint.Encode(n), Varint.Encode(|key| - n), n, p, key, TermRecord(prev, key));
  }

  lemma {:induction false} RawSpells(prev: Option<bytes>, key: bytes, length: nat)
    ensures var raw := RawFor(prev, key, length);
            && (prev.Some? ==> raw.keep <= |prev.value|)
            && (if prev.None? then [] else prev.value[..raw.keep]) + raw.suffix == key
  {
    if prev.None? {
      assert [] + key == key;
    } else {
      var n := Common(key, prev.value);
      assert prev.value[..n] + key[n..] == key;
    }
  }

  lemma {:induction false} ReadTermIs(leaf: bytes, footer: nat, at: nat, prev: Option<bytes>, raw: RawTerm, key: bytes)
    requires at <= |leaf| && ReadRaw(leaf[at..], prev) == Ok(raw) && at + raw.length <= footer
    requires prev.Some? ==> raw.keep <= |prev.value|
    requires (if prev.None? then [] else prev.value[..raw.keep]) + raw.suffix == key
    ensures ReadTerm(leaf, footer, at, prev) == Ok(TermRec(key, at, at + raw.length))
  {
  }

  lemma {:induction false} TermReads(leaf: bytes, footer: nat, at: nat, rec: bytes, prev: Option<bytes>, key: bytes,
                                     tail: bytes)
    requires RecordReads(rec, prev, key) && at <= |leaf| && leaf[at..] == rec + tail && at + |rec| <= footer
    ensures ReadTerm(leaf, footer, at, prev) == Ok(TermRec(key, at, at + |rec|))
  {
    var raw := RawFor(prev, key, |rec|);
    assert ReadRaw(rec + tail, prev) == Ok(raw);
    RawSpells(prev, key, |rec|);
    ReadTermIs(leaf, footer, at, prev, raw, key);
  }

  // Chunks whose records stand for these keys.
  ghost predicate ChunksRead(cs: seq<Chunk>, keys: seq<bytes>, prev: Option<bytes>)
    decreases cs
  {
    && |cs| == |keys|
    && (cs != [] ==> RecordReads(cs[0].rec, prev, keys[0]) && ChunksRead(cs[1..], keys[1..], Some(keys[0])))
  }

  /** The records of a leaf as a reader finds them. */
  function TermsAt(cs: seq<Chunk>, keys: seq<bytes>, at: nat): (r: seq<TermRec>)
    requires |cs| == |keys|
    ensures |r| == |cs|
    decreases cs
  {
    if cs == [] then []
    else
      [TermRec(keys[0], at, at + |cs[0].rec|)]
      + TermsAt(cs[1..], keys[1..], at + |cs[0].rec| + |cs[0].doc|)
  }

  // One after the other, the records are read as these keys.
  ghost predicate EachReads(read: TermReader, cs: seq<Chunk>, keys: seq<bytes>, prev: Option<bytes>, at: nat)
    decreases cs
  {
    && |cs| == |keys|
    && (cs != [] ==>
          && read(at, prev) == Ok(TermRec(keys[0], at, at + |cs[0].rec|))
          && EachReads(read, cs[1..], keys[1..], Some(keys[0]), at + |cs[0].rec| + |cs[0].doc|))
  }

  lemma {:induction false} EachIsTerms(read: TermReader, cs: seq<Chunk>, keys: seq<bytes>, prev: Option<bytes>, at: nat)
    requires EachReads(read, cs, keys, prev, at)
    ensures ReadEach(read, Offsets(cs, at), prev) == Ok(TermsAt(cs, keys, at))
    decreases cs
  {
    if cs != [] {
      var next := at + |cs[0].rec| + |cs[0].doc|;
      EachIsTerms(read, cs[1..], keys[1..], Some(keys[0]), next);
      assert ([at] + Offsets(cs[1..], next))[1..] == Offsets(cs[1..], next);
    }
  }

  // Whether these bytes lie at an offset of a leaf.
  type Placed = (nat, bytes) -> bool

  function PlacedOn(leaf: bytes, footer: nat): Placed {
    (at: nat, rec: bytes) => at + |rec| <= footer && at + |rec| <= |leaf| && leaf[at..at + |rec|] == rec
  }

  lemma {:induction false} OneRead(leaf: bytes, footer: nat, at: nat, rec: bytes, prev: Option<bytes>, key: bytes)
    requires RecordReads(rec, prev, key) && PlacedOn(leaf, footer)(at, rec)
    ensures ReaderOf(leaf, footer)(at, prev) == Ok(TermRec(key, at, at + |rec|))
  {
    var tail := leaf[at + |rec|..];
    SplitAt(leaf, at, at + |rec|);
    TermReads(leaf, footer, at, rec, prev, key, tail);
  }

  lemma {:induction false} SplitAt(b: bytes, i: nat, j: nat)
    requires i <= j <= |b|
    ensures b[i..] == b[i..j] + b[j..]
  {
  }

  // The records of the chunks are placed one after the other.
  ghost predicate AllPlaced(placed: Placed, cs: seq<Chunk>, at: nat)
    decreases cs
  {
    cs == [] || (placed(at, cs[0].rec) && AllPlaced(placed, cs[1..], at + |cs[0].rec| + |cs[0].doc|))
  }

  lemma {:induction false} PartsOfSlice(b: bytes, at: nat, s: bytes, t: bytes)
    requires at + |s + t| <= |b| && b[at..at + |s + t|] == s + t
    ensures b[at..at + |s|] == s && b[at + |s|..at + |s| + |t|] == t
  {
    assert b[at..at + |s|] == b[at..at + |s + t|][..|s|];
    assert b[at + |s|..at + |s| + |t|] == b[at..at + |s + t|][|s|..];
  }

  lemma {:induction false} CatPlaced(leaf: bytes, footer: nat, cs: seq<Chunk>, at: nat)
    requires at + |Cat(cs)| <= footer && at + |Cat(cs)| <= |leaf| && leaf[at..at + |Cat(cs)|] == Cat(cs)
    ensures AllPlaced(PlacedOn(leaf, footer), cs, at)
    decreases cs
  {
    if cs != [] {
      var rec, doc, rest := cs[0].rec, cs[0].doc, Cat(cs[1..]);
      PartsOfSlice(leaf, at, rec + doc, rest);
      PartsOfSlice(leaf, at, rec, doc);
      CatPlaced(leaf, footer, cs[1..], at + |rec| + |doc|);
    }
  }

  lemma {:induction false} EachCons(read: TermReader, cs: seq<Chunk>, keys: seq<bytes>, prev: Option<bytes>, at: nat)
    requires cs != [] && |cs| == |keys| && read(at, prev) == Ok(TermRec(keys[0], at, at + |cs[0].rec|))
    requires EachReads(read, cs[1..], keys[1..], Some(keys[0]), at + |cs[0].rec| + |cs[0].doc|)
    ensures EachReads(read, cs, keys, prev, at)
  {
  }

  lemma {:induction false} TermsRead(leaf: bytes, footer: nat, cs: seq<Chunk>, keys: seq<bytes>, prev: Option<bytes>,
                                     at: nat)
    requires ChunksRead(cs, keys, prev) && AllPlaced(PlacedOn(leaf, footer), cs, at)
    ensures EachReads(ReaderOf(leaf, footer), cs, keys, prev, at)
    decreases cs
  {
    if cs != [] {
      OneRead(leaf, footer, at, cs[0].rec, prev, keys[0]);
      TermsRead(leaf, footer, cs[1..], keys[1..], Some(keys[0]), at + |cs[0].rec| + |cs[0].doc|);
      EachCons(ReaderOf(leaf, footer), cs, keys, prev, at);
    }
  }

  function Keys(parts: seq<Part>): (r: seq<bytes>)
    ensures |r| == |parts|
  {
    seq(|parts|, i requires 0 <= i < |parts| => parts[i].key)
  }

  lemma {:induction false} PartsRead(parts: seq<Part>, prev: Option<bytes>)
    requires KeysOk(parts)
    ensures ChunksRead(Chunks(parts, prev), Keys(parts), prev)
    decreases parts
  {
    if parts != [] {
      var key := parts[0].key;
      TermRecordReads(prev, key);
      PartsRead(parts[1..], Some(key));
      ChunksReadCons(Chunk(TermRecord(prev, key), parts[0].doc), Chunks(parts[1..], Some(key)), key, Keys(parts[1..]),
                     prev);
      assert Keys(parts) == [key] + Keys(parts[1..]);
    }
  }

  lemma {:induction false} ChunksReadCons(c: Chunk, cs: seq<Chunk>, key: bytes, keys: seq<bytes>, prev: Option<bytes>)
    requires RecordReads(c.rec, prev, key) && ChunksRead(cs, keys, Some(key))
    ensures ChunksRead([c] + cs, [key] + keys, prev)
  {
    assert ([c] + cs)[1..] == cs && ([key] + keys)[1..] == keys;
  }

  function ViewOf(l: Leaf): View
    requires LeafOk(l)
  {
    View(FirstRowid(l), 4 + |Body(l)|, TermsAt(Chunks(l.parts, None), Keys(l.parts), 4 + |Lead(l)|))
  }

  lemma {:induction false} LeafSlices(h: bytes, lead: bytes, cat: bytes, foot: bytes)
    requires |h| == 4
    ensures var b := h + (lead + cat) + foot;
            && |b| == 4 + |lead + cat| + |foot| && b[..4] == h && b[4 + |lead + cat|..] == foot
            && b[4 + |lead|..4 + |lead| + |cat|] == cat
  {
    var b := h + (lead + cat) + foot;
    assert b == (h + lead) + (cat + foot);
  }

  lemma {:induction false} HeaderFields(b: bytes, first: nat, footer: nat)
    requires first < 0x1_0000 && footer < 0x1_0000 && |b| >= 4 && b[..4] == Be16(first) + Be16(footer)
    ensures Get16(b, 0) == first && Get16(b, 2) == footer
  {
    assert b[0..2] == b[..4][..2] && b[2..4] == b[..4][2..];
    Be16RoundTrip(b, 0, first);
    Be16RoundTrip(b, 2, footer);
  }

  lemma {:induction false} ParseIs(b: bytes, first: nat, footer: nat, offs: seq<nat>, terms: seq<TermRec>, foot: bytes)
    requires |b| >= 4 && Get16(b, 0) == first && Get16(b, 2) == footer
    requires 4 <= footer <= |b| && (first == 0 || 4 <= first <= footer) && b[footer..] == foot
    requires ReadOffsets(foot, 0, footer) == Ok(offs) && ReadTerms(b, footer, offs) == Ok(terms)
    ensures ParseLeaf(b) == Ok(View(first, footer, terms))
  {
  }

  lemma {:induction false} LeafTerms(l: Leaf, b: bytes)
    requires LeafOk(l) && 4 + |Body(l)| <= |b|
    requires b[4 + |Lead(l)|..4 + |Body(l)|] == Cat(Chunks(l.parts, None))
    ensures ReadTerms(b, 4 + |Body(l)|, TermOffsets(l)) == Ok(ViewOf(l).terms)
  {
    var cs, at, footer := Chunks(l.parts, None), 4 + |Lead(l)|, 4 + |Body(l)|;
    PartsRead(l.parts, None);
    CatPlaced(b, footer, cs, at);
    TermsRead(b, footer, cs, Keys(l.parts), None, at);
    EachIsTerms(ReaderOf(b, footer), cs, Keys(l.parts), None, at);
  }

  lemma {:induction false} LeafFooter(l: Leaf)
    requires LeafOk(l)
    ensures Rising(TermOffsets(l), 0) && ReadOffsets(Pgidx(TermOffsets(l), 0), 0, 4 + |Body(l)|) == Ok(TermOffsets(l))
  {
    OffsetsRise(Chunks(l.parts, None), 4 + |Lead(l)|, 0);
    FooterReads(TermOffsets(l), 0, 4 + |Body(l)|);
  }

  // The parts of a written leaf.
  lemma {:induction false} LeafShape(l: Leaf)
    requires LeafOk(l) && Rising(TermOffsets(l), 0)
    ensures var b, footer := LeafBytes(l), 4 + |Body(l)|;
            && footer <= |b| && b[..4] == Be16(FirstRowid(l)) + Be16(footer)
            && b[footer..] == Pgidx(TermOffsets(l), 0)
            && b[4 + |Lead(l)|..footer] == Cat(Chunks(l.parts, None))
  {
    var footer := 4 + |Body(l)|;
    LeafSlices(Be16(FirstRowid(l)) + Be16(footer), Lead(l), Cat(Chunks(l.parts, None)), Pgidx(TermOffsets(l), 0));
  }

  /** A leaf that was written is read back: its two offsets, its keys in full, and where each record and
      its doclist start. */
  lemma {:induction false} LeafReadsBack(l: Leaf)
    requires LeafOk(l)
    ensures ParseLeaf(LeafBytes(l)) == Ok(ViewOf(l))
  {
    LeafFooter(l);
    LeafShape(l);
    HeaderFields(LeafBytes(l), FirstRowid(l), 4 + |Body(l)|);
    LeafTerms(l, LeafBytes(l));
    ParseIs(LeafBytes(l), FirstRowid(l), 4 + |Body(l)|, TermOffsets(l), ViewOf(l).terms, Pgidx(TermOffsets(l), 0));
  }
}
