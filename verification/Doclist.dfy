/** Doclists as they are written: entries with absolute or relative rowids. Decoding gives the postings
    back wherever rowids were made absolute. */
module Doclist {
  import opened Seqs
  import opened Bytes
  import opened Poslist
  import opened SegRead
  import Varint

  // ----- Encoded entries

  /** An entry in its written form: what a reader finds in it, whether its rowid is absolute, and the
      posting it stands for. */
  datatype Encoded = Encoded(b: bytes, raw: RawEntry, abs: bool, post: Posting)

  /** The bytes `b` are read as this entry, whatever follows. */
  ghost predicate IsEntry(read: EntryReader, b: bytes, e: RawEntry) {
    b != [] && e.length == |b| && forall rest: bytes :: read(b + rest) == Ok(e)
  }

  // Entry `x` stands for its posting when the rowid before it is `before`.
  ghost predicate StandsFor(read: EntryReader, next: RowidStep, x: Encoded, before: int) {
    IsEntry(read, x.b, x.raw) && x.post == Posting(next(x.abs, before, x.raw.field), x.raw.cols, x.raw.del)
  }

  ghost predicate Chain(read: EntryReader, next: RowidStep, xs: seq<Encoded>, before: int)
    decreases xs
  {
    xs == [] || (StandsFor(read, next, xs[0], before) && Chain(read, next, xs[1..], xs[0].post.rowid))
  }

  ghost function Joined(xs: seq<Encoded>): bytes {
    if xs == [] then [] else xs[0].b + Joined(xs[1..])
  }

  ghost function Posts(xs: seq<Encoded>): (r: seq<Posting>)
    ensures |r| == |xs|
  {
    if xs == [] then [] else [xs[0].post] + Posts(xs[1..])
  }

  // The marks say which rowids are absolute, the first entry being at `at`.
  ghost predicate Agree(marks: set<nat>, xs: seq<Encoded>, at: nat)
    decreases xs
  {
    xs == [] || ((xs[0].abs <==> at == 0 || at in marks) && Agree(marks, xs[1..], at + |xs[0].b|))
  }

  ghost function LastRowid(xs: seq<Encoded>, before: int): int {
    if xs == [] then before else xs[|xs| - 1].post.rowid
  }

  // At the front of `s` is entry `e`, and then `tail`.
  ghost predicate Front(read: EntryReader, s: bytes, e: RawEntry, tail: bytes) {
    s != [] && read(s) == Ok(e) && 0 < e.length <= |s| && s[e.length..] == tail
  }

  lemma {:induction false} EntryFront(read: EntryReader, b: bytes, e: RawEntry, rest: bytes)
    requires IsEntry(read, b, e)
    ensures Front(read, b + rest, e, rest)
  {
    TailOf(b, rest);
  }

  lemma {:induction false} EntriesStep(read: EntryReader, next: RowidStep, s: bytes, at: nat, marks: set<nat>,
                                       before: int, e: RawEntry, tail: bytes, p: Posting, ps: seq<Posting>)
    requires Front(read, s, e, tail) && p == Posting(next(at == 0 || at in marks, before, e.field), e.cols, e.del)
    requires Entries(read, next, tail, at + e.length, marks, p.rowid) == Ok(ps)
    ensures Entries(read, next, s, at, marks, before) == Ok([p] + ps)
  {
  }

  // The first entry of a chain, and what the chain is made of.
  lemma {:induction false} ChainFront(read: EntryReader, next: RowidStep, xs: seq<Encoded>, at: nat, marks: set<nat>,
                                      before: int)
    requires xs != [] && Chain(read, next, xs, before) && Agree(marks, xs, at)
    ensures Front(read, Joined(xs), xs[0].raw, Joined(xs[1..])) && xs[0].raw.length == |xs[0].b|
    ensures xs[0].post
         == Posting(next(at == 0 || at in marks, before, xs[0].raw.field), xs[0].raw.cols, xs[0].raw.del)
    ensures Chain(read, next, xs[1..], xs[0].post.rowid) && Agree(marks, xs[1..], at + |xs[0].b|)
  {
    EntryFront(read, xs[0].b, xs[0].raw, Joined(xs[1..]));
  }

  /** Decoding a chain of entries gives their postings. */
  lemma {:induction false} ChainReads(read: EntryReader, next: RowidStep, xs: seq<Encoded>, at: nat, marks: set<nat>,
                                      before: int)
    requires Chain(read, next, xs, before) && Agree(marks, xs, at)
    ensures Entries(read, next, Joined(xs), at, marks, before) == Ok(Posts(xs))
    decreases xs
  {
    if xs != [] {
      ChainFront(read, next, xs, at, marks, before);
      ChainReads(read, next, xs[1..], at + |xs[0].b|, marks, xs[0].post.rowid);
      EntriesStep(read, next, Joined(xs), at, marks, before, xs[0].raw, Joined(xs[1..]), xs[0].post, Posts(xs[1..]));
    }
  }

  // ----- One entry more

  lemma {:induction false} JoinedSnoc(xs: seq<Encoded>, x: Encoded)
    ensures Joined(xs + [x]) == Joined(xs) + x.b && Posts(xs + [x]) == Posts(xs) + [x.post]
    decreases xs
  {
    if xs == [] {
      assert [] + [x] == [x] && [x][1..] == [];
    } else {
      JoinedSnoc(xs[1..], x);
      assert (xs + [x])[1..] == xs[1..] + [x] && (xs + [x])[0] == xs[0];
      Assoc(xs[0].b, Joined(xs[1..]), x.b);
    }
  }

  lemma {:induction false} ChainSnoc(read: EntryReader, next: RowidStep, xs: seq<Encoded>, x: Encoded, before: int)
    requires Chain(read, next, xs, before) && StandsFor(read, next, x, LastRowid(xs, before))
    ensures Chain(read, next, xs + [x], before)
    decreases xs
  {
    if xs == [] {
      assert [] + [x] == [x] && [x][1..] == [];
    } else {
      assert (xs + [x])[1..] == xs[1..] + [x] && (xs + [x])[0] == xs[0];
      ChainSnoc(read, next, xs[1..], x, xs[0].post.rowid);
    }
  }

  // A mark at the end says nothing about the entries before it.
  lemma {:induction false} AgreeSnoc(marks: set<nat>, more: set<nat>, xs: seq<Encoded>, x: Encoded, at: nat, end: nat)
    requires Agree(marks, xs, at) && end == at + |Joined(xs)|
    requires forall y :: y in xs ==> y.b != []
    requires forall m :: m < end ==> (m in more <==> m in marks) || m == 0
    requires x.abs <==> end == 0 || end in more
    ensures Agree(more, xs + [x], at)
    decreases xs
  {
    if xs == [] {
      assert [] + [x] == [x] && [x][1..] == [];
    } else {
      assert (xs + [x])[1..] == xs[1..] + [x] && (xs + [x])[0] == xs[0];
      assert xs[0] in xs;
      AgreeSnoc(marks, more, xs[1..], x, at + |xs[0].b|, end);
    }
  }

  // ----- The entries a writer writes

  // The bytes `b` are read as this position list, whatever follows.
  ghost predicate IsPoslist(b: bytes, cols: seq<seq<nat>>, del: bool) {
    forall rest: bytes :: ReadPoslist(b + rest) == Ok(Entry(cols, del, |b|))
  }

  lemma {:induction false} PoslistIs(p: Posting)
    requires PostingOk(p)
    ensures IsPoslist(PoslistBytes(p), Norm(p.cols, |p.cols|), p.del)
  {
    forall rest: bytes
      ensures ReadPoslist(PoslistBytes(p) + rest) == Ok(Entry(Norm(p.cols, |p.cols|), p.del, |PoslistBytes(p)|))
    {
      PoslistReadsBack(p, rest);
    }
  }

  lemma {:induction false} EntryIs(r: bytes, d: nat, pl: bytes, cols: seq<seq<nat>>, del: bool)
    requires Varint.IsVarint(r, d) && IsPoslist(pl, cols, del)
    ensures IsEntry(ReadEntry, r + pl, RawEntry(d, cols, del, |r| + |pl|))
  {
    var b := r + pl;
    forall rest: bytes
      ensures ReadEntry(b + rest) == Ok(RawEntry(d, cols, del, |r| + |pl|))
    {
      assert Varint.Decode(r + (pl + rest)) == Varint.Decoded(d, |r|);
      assert ReadPoslist(pl + rest) == Ok(Entry(cols, del, |pl|));
      OneEntry(r, d, pl, cols, del, rest, b + rest);
    }
  }

  lemma {:induction false} OneEntry(r: bytes, d: nat, pl: bytes, cols: seq<seq<nat>>, del: bool, rest: bytes, s: bytes)
    requires Varint.Decode(r + (pl + rest)) == Varint.Decoded(d, |r|) && s == (r + pl) + rest
    requires ReadPoslist(pl + rest) == Ok(Entry(cols, del, |pl|))
    ensures ReadEntry(s) == Ok(RawEntry(d, cols, del, |r| + |pl|))
  {
    Assoc(r, pl, rest);
    TailOf(r, pl + rest);
    ReadEntryIs(s, d, |r|, pl + rest, Entry(cols, del, |pl|));
  }

  lemma {:induction false} ReadEntryIs(s: bytes, d: nat, n: nat, tail: bytes, e: Entry)
    requires Varint.Decode(s) == Varint.Decoded(d, n) && s[n..] == tail && ReadPoslist(tail) == Ok(e)
    ensures ReadEntry(s) == Ok(RawEntry(d, e.cols, e.del, n + e.length))
  {
  }

  /** The posting without empty columns at the end, as a reader finds it. */
  function Normed(p: Posting): Posting {
    Posting(p.rowid, Norm(p.cols, |p.cols|), p.del)
  }

  // The rowid as it is written: absolute, or as the distance from the one before.
  function RowidField(p: Posting, abs: bool, before: int): int {
    if abs then p.rowid else p.rowid - before
  }

  ghost predicate FieldOk(p: Posting, abs: bool, before: int) {
    PostingOk(p) && 0 <= before && (abs || before < p.rowid)
  }

  ghost function EntryFor(p: Posting, abs: bool, before: int): Encoded
    requires FieldOk(p, abs, before)
  {
    var d := RowidField(p, abs, before);
    var b := Varint.Encode(d) + PoslistBytes(p);
    Encoded(b, RawEntry(d, Norm(p.cols, |p.cols|), p.del, |b|), abs, Normed(p))
  }

  lemma {:induction false} RowidReads(field: int, before: int)
    requires 0 <= field < 0x8000_0000_0000_0000 && 0 <= before && before + field < 0x8000_0000_0000_0000
    ensures NextRowid(true, before, field) == field && NextRowid(false, before, field) == before + field
  {
  }

  lemma {:induction false} EntryStandsFor(p: Posting, abs: bool, before: int)
    requires FieldOk(p, abs, before)
    ensures StandsFor(ReadEntry, NextRowid, EntryFor(p, abs, before), before)
  {
    var d := RowidField(p, abs, before);
    Varint.EncodeIsVarint(d);
    PoslistIs(p);
    EntryIs(Varint.Encode(d), d, PoslistBytes(p), Norm(p.cols, |p.cols|), p.del);
    RowidReads(d, if abs then 0 else before);
  }

  /** A doclist decodes to its postings. */
  lemma {:induction false} DoclistReadsBack(f: Flat, xs: seq<Encoded>)
    requires Chain(ReadEntry, NextRowid, xs, 0) && Agree(f.marks, xs, 0) && f.buf == Joined(xs)
    ensures DecodeFlat(f) == Ok(Posts(xs))
  {
    ChainReads(ReadEntry, NextRowid, xs, 0, f.marks, 0);
  }
}
