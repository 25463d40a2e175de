/** A leaf under construction: what appending doclist bytes, resuming a doclist and adding a term do to
    the page, and to the doclists a reader finds. */
module SegBuild {
  import opened Seqs
  import opened Bytes
  import opened SegLeaf
  import opened SegRead
  import opened Doclist

  const BLANK := Leaf([], false, [], [])

  function LastKey(parts: seq<Part>): Option<bytes> {
    if parts == [] then None else Some(parts[|parts| - 1].key)
  }

  ghost predicate Building(l: Leaf) {
    KeysOk(l.parts) && (if l.abs then l.post != [] else l.post == [])
  }

  // ----- The page

  /** Doclist bytes go to the last term on the leaf or, on a leaf without terms, to what it continues. */
  function Append(l: Leaf, b: bytes): Leaf {
    if l.parts != [] then
      var n := |l.parts| - 1;
      l.(parts := l.parts[..n] + [Part(l.parts[n].key, l.parts[n].doc + b)])
    else if l.abs then l.(post := l.post + b)
    else l.(pre := l.pre + b)
  }

  /** The first rowid on a leaf without terms. */
  function Resume(l: Leaf, b: bytes): Leaf {
    l.(abs := true, post := b)
  }

  function AddTerm(l: Leaf, key: bytes): Leaf {
    l.(parts := l.parts + [Part(key, [])])
  }

  // The key a record after these parts is compressed against.
  function KeyAfter(parts: seq<Part>, prev: Option<bytes>): Option<bytes> {
    if parts == [] then prev else LastKey(parts)
  }

  lemma {:induction false} ChunksSnoc(parts: seq<Part>, p: Part, prev: Option<bytes>)
    requires KeysOk(parts) && KeyOk(p.key)
    ensures KeysOk(parts + [p])
    ensures Chunks(parts + [p], prev)
         == Chunks(parts, prev) + [Chunk(TermRecord(KeyAfter(parts, prev), p.key), p.doc)]
    decreases parts
  {
    if parts == [] {
      Single(p);
    } else {
      var key := Some(parts[0].key);
      Snoc(parts, p);
      ChunksSnoc(parts[1..], p, key);
      Assoc([Chunk(TermRecord(prev, parts[0].key), parts[0].doc)], Chunks(parts[1..], key),
            [Chunk(TermRecord(KeyAfter(parts[1..], key), p.key), p.doc)]);
    }
  }

  lemma {:induction false} CatSnoc(cs: seq<Chunk>, c: Chunk)
    ensures Cat(cs + [c]) == Cat(cs) + (c.rec + c.doc)
    decreases cs
  {
    if cs == [] {
      Single(c);
    } else {
      Snoc(cs, c);
      CatSnoc(cs[1..], c);
      Assoc(cs[0].rec + cs[0].doc, Cat(cs[1..]), c.rec + c.doc);
    }
  }

  lemma {:induction false} OffsetsSnoc(cs: seq<Chunk>, c: Chunk, at: nat)
    ensures Offsets(cs + [c], at) == Offsets(cs, at) + [at + |Cat(cs)|]
    decreases cs
  {
    if cs == [] {
      Single(c);
    } else {
      var next := at + |cs[0].rec| + |cs[0].doc|;
      OffsetsSnoc(cs[1..], c, next);
      OffsetsStep(cs, cs[1..], at, next);
      Snoc(cs, c);
      OffsetsStep(cs + [c], cs[1..] + [c], at, next);
      assert at + |Cat(cs)| == next + |Cat(cs[1..])|;
      Assoc([at], Offsets(cs[1..], next), [next + |Cat(cs[1..])|]);
    }
  }

  lemma {:induction false} OffsetsStep(cs: seq<Chunk>, rest: seq<Chunk>, at: nat, next: nat)
    requires cs != [] && cs[1..] == rest && next == at + |cs[0].rec| + |cs[0].doc|
    ensures Offsets(cs, at) == [at] + Offsets(rest, next)
  {
  }

  // The body and the offsets of a leaf whose last term is `p`.
  lemma {:induction false} LastTerm(l: Leaf, front: seq<Part>, p: Part)
    requires KeysOk(front) && KeyOk(p.key) && l.parts == front + [p]
    ensures KeysOk(l.parts)
    ensures var cs := Chunks(front, None);
            && Body(l) == Lead(l) + Cat(cs) + (TermRecord(LastKey(front), p.key) + p.doc)
            && TermOffsets(l) == Offsets(cs, 4 + |Lead(l)|) + [4 + |Lead(l)| + |Cat(cs)|]
  {
    var cs, c := Chunks(front, None), Chunk(TermRecord(LastKey(front), p.key), p.doc);
    ChunksSnoc(front, p, None);
    CatSnoc(cs, c);
    OffsetsSnoc(cs, c, 4 + |Lead(l)|);
    Assoc(Lead(l), Cat(cs), c.rec + c.doc);
  }

  lemma {:induction false} NoTerms(l: Leaf)
    requires l.parts == []
    ensures KeysOk(l.parts) && Body(l) == Lead(l) && TermOffsets(l) == []
  {
    assert Lead(l) + [] == Lead(l);
  }

  lemma {:induction false} AppendToTerm(l: Leaf, front: seq<Part>, p: Part, b: bytes)
    requires Building(l) && l.parts == front + [p]
    ensures var m := l.(parts := front + [Part(p.key, p.doc + b)]);
            Building(m) && Body(m) == Body(l) + b && TermOffsets(m) == TermOffsets(l)
  {
    KeysOfFront(l.parts, front, p);
    LastTerm(l, front, p);
    LastTerm(l.(parts := front + [Part(p.key, p.doc + b)]), front, Part(p.key, p.doc + b));
    RecDoc(Lead(l) + Cat(Chunks(front, None)), TermRecord(LastKey(front), p.key), p.doc, b);
  }

  lemma {:induction false} KeysOfFront(parts: seq<Part>, front: seq<Part>, p: Part)
    requires KeysOk(parts) && parts == front + [p]
    ensures KeysOk(front) && KeyOk(p.key)
  {
    assert forall i :: 0 <= i < |front| ==> front[i] == parts[i];
    assert p == parts[|front|];
  }

  lemma {:induction false} RecDoc(a: bytes, rec: bytes, doc: bytes, b: bytes)
    ensures a + (rec + (doc + b)) == (a + (rec + doc)) + b
  {
  }

  lemma {:induction false} LeadAssoc(l: Leaf, b: bytes)
    ensures l.pre + (l.post + b) == (l.pre + l.post) + b
    ensures l.post == [] ==> (l.pre + b) + l.post == (l.pre + l.post) + b
  {
  }

  /** Appending adds to the body and leaves offsets and header as they are. */
  lemma {:induction false} AppendPage(l: Leaf, b: bytes)
    requires Building(l)
    ensures var m := Append(l, b);
            && Building(m) && Body(m) == Body(l) + b && TermOffsets(m) == TermOffsets(l)
            && FirstRowid(m) == FirstRowid(l) && LastKey(m.parts) == LastKey(l.parts) && m.abs == l.abs
            && (m.parts == [] <==> l.parts == [])
  {
    if l.parts != [] {
      var n := |l.parts| - 1;
      assert l.parts == l.parts[..n] + [l.parts[n]];
      AppendToTerm(l, l.parts[..n], l.parts[n], b);
    } else {
      LeadAssoc(l, b);
      NoTerms(l);
      NoTerms(Append(l, b));
    }
  }

  lemma {:induction false} ResumePage(l: Leaf, b: bytes)
    requires Building(l) && l.parts == [] && !l.abs && b != []
    ensures var m := Resume(l, b);
            && Building(m) && Body(m) == Body(l) + b && TermOffsets(m) == TermOffsets(l)
            && FirstRowid(m) == 4 + |Body(l)|
  {
    assert l.pre + [] == l.pre;
    NoTerms(l);
    NoTerms(Resume(l, b));
  }

  lemma {:induction false} AddTermPage(l: Leaf, key: bytes)
    requires Building(l) && KeyOk(key)
    ensures var m := AddTerm(l, key);
            && Building(m) && Body(m) == Body(l) + TermRecord(LastKey(l.parts), key)
            && TermOffsets(m) == TermOffsets(l) + [4 + |Body(l)|] && FirstRowid(m) == FirstRowid(l)
            && LastKey(m.parts) == Some(key)
  {
    var m, rec := AddTerm(l, key), TermRecord(LastKey(l.parts), key);
    var none: bytes := [];
    LastTerm(m, l.parts, Part(key, none));
    assert rec + none == rec;
    assert Lead(m) == Lead(l) && Body(l) == Lead(l) + Cat(Chunks(l.parts, None));
  }

  // ----- The doclists

  function Grow(f: Flat, b: bytes, mark: bool): Flat {
    Flat(f.buf + b, if mark then f.marks + {|f.buf|} else f.marks)
  }

  function GrowLast(docs: seq<Doc>, b: bytes, mark: bool): seq<Doc>
    requires docs != []
  {
    var n := |docs| - 1;
    docs[..n] + [Doc(docs[n].key, Grow(docs[n].flat, b, mark))]
  }

  // Whether appending starts a doclist.
  predicate AtStart(l: Leaf) {
    l.parts != [] && l.parts[|l.parts| - 1].doc == []
  }

  lemma {:induction false} StartGrows(p: Part, b: bytes)
    requires b != []
    ensures StartDoc(Part(p.key, p.doc + b)) == Doc(p.key, Grow(StartDoc(p).flat, b, p.doc == []))
  {
    var none: bytes := [];
    assert none + (p.doc + b) == (none + p.doc) + b;
  }

  lemma {:induction false} AppendToTermDocs(docs: seq<Doc>, l: Leaf, b: bytes)
    requires l.parts != [] && b != []
    ensures Step(docs, l) != [] && Step(docs, Append(l, b)) == GrowLast(Step(docs, l), b, AtStart(l))
    ensures AtStart(l) ==> Step(docs, l)[|Step(docs, l)| - 1].flat.buf == []
  {
    var n := |l.parts| - 1;
    var front, p := l.parts[..n], l.parts[n];
    var p', lead := Part(p.key, p.doc + b), ExtendLast(docs, LeadRuns(l));
    StartGrows(p, b);
    assert StartDocs(l.parts) == StartDocs(front) + [StartDoc(p)];
    assert StartDocs(Append(l, b).parts) == StartDocs(front) + [StartDoc(p')];
    LastOfCat(lead, StartDocs(front), StartDoc(p), StartDoc(p'));
  }

  lemma {:induction false} LastOfCat(a: seq<Doc>, b: seq<Doc>, d: Doc, e: Doc)
    ensures var x, y := a + (b + [d]), a + (b + [e]);
            var n := |x| - 1;
            x[n] == d && y == x[..n] + [e]
  {
  }

  lemma {:induction false} AppendToLead(f: Flat, l: Leaf, b: bytes)
    requires Building(l) && l.parts == [] && b != []
    ensures ExtendAll(f, LeadRuns(Append(l, b))) == Grow(ExtendAll(f, LeadRuns(l)), b, false)
  {
    LeadExtends(f, l);
    LeadExtends(f, Append(l, b));
    Assoc(f.buf, l.pre, b);
    Assoc(f.buf + l.pre, l.post, b);
  }

  lemma {:induction false} LeadExtends(f: Flat, l: Leaf)
    ensures ExtendAll(f, LeadRuns(l))
         == if l.abs then Extend(Extend(f, Run(l.pre, false)), Run(l.post, true)) else Extend(f, Run(l.pre, false))
  {
    var more := if l.abs then [Run(l.post, true)] else [];
    ExtendOne(f, Run(l.pre, false), more);
    if l.abs {
      assert [Run(l.post, true)] == [Run(l.post, true)] + [];
      ExtendOne(Extend(f, Run(l.pre, false)), Run(l.post, true), []);
    }
  }

  lemma {:induction false} LeadOnly(docs: seq<Doc>, l: Leaf)
    requires l.parts == []
    ensures Step(docs, l) == ExtendLast(docs, LeadRuns(l))
  {
    assert StartDocs(l.parts) == [];
  }

  // On a leaf without terms, one run more or a longer one makes the last doclist grow.
  lemma {:induction false} LeadGrows(docs: seq<Doc>, l: Leaf, m: Leaf, b: bytes, mark: bool)
    requires docs != [] && l.parts == [] && m.parts == []
    requires var f := docs[|docs| - 1].flat;
             ExtendAll(f, LeadRuns(m)) == Grow(ExtendAll(f, LeadRuns(l)), b, mark)
    ensures Step(docs, l) != [] && Step(docs, m) == GrowLast(Step(docs, l), b, mark)
  {
    LeadOnly(docs, l);
    LeadOnly(docs, m);
    var n := |docs| - 1;
    assert ExtendLast(docs, LeadRuns(l))[..n] == docs[..n];
  }

  /** Appended bytes are found at the end of the last doclist, with no new absolute rowid, unless they
      are the first of the doclist. */
  lemma {:induction false} AppendDocs(docs: seq<Doc>, l: Leaf, b: bytes)
    requires Building(l) && b != [] && (docs != [] || l.parts != [])
    ensures Step(docs, l) != [] && Step(docs, Append(l, b)) == GrowLast(Step(docs, l), b, AtStart(l))
    ensures AtStart(l) ==> Step(docs, l)[|Step(docs, l)| - 1].flat.buf == []
  {
    if l.parts != [] {
      AppendToTermDocs(docs, l, b);
    } else {
      AppendToLead(docs[|docs| - 1].flat, l, b);
      LeadGrows(docs, l, Append(l, b), b, false);
    }
  }

  /** A resumed doclist goes on with an absolute rowid. */
  lemma {:induction false} ResumeDocs(docs: seq<Doc>, l: Leaf, b: bytes)
    requires Building(l) && l.parts == [] && !l.abs && b != [] && docs != []
    ensures Step(docs, l) != [] && Step(docs, Resume(l, b)) == GrowLast(Step(docs, l), b, true)
  {
    var f := docs[|docs| - 1].flat;
    LeadExtends(f, l);
    LeadExtends(f, Resume(l, b));
    LeadGrows(docs, l, Resume(l, b), b, true);
  }

  lemma {:induction false} AddTermDocs(docs: seq<Doc>, l: Leaf, key: bytes)
    ensures Step(docs, AddTerm(l, key)) == Step(docs, l) + [Doc(key, NOTHING)]
  {
    var lead := ExtendLast(docs, LeadRuns(l));
    var none: bytes := [];
    assert none + none == none;
    assert StartDocs(l.parts + [Part(key, [])]) == StartDocs(l.parts) + [Doc(key, NOTHING)];
    assert (lead + StartDocs(l.parts)) + [Doc(key, NOTHING)] == lead + (StartDocs(l.parts) + [Doc(key, NOTHING)]);
  }

  /** Turning the page changes no doclist. */
  lemma {:induction false} FlushDocs(done: seq<Leaf>, l: Leaf)
    ensures Step(ReadFrom([], done + [l]), BLANK) == Step(ReadFrom([], done), l)
  {
    ReadSnoc([], done, l);
    BlankStep(Step(ReadFrom([], done), l));
  }

  lemma {:induction false} BlankStep(docs: seq<Doc>)
    ensures Step(docs, BLANK) == docs
  {
    LeadOnly(docs, BLANK);
    if docs != [] {
      var n := |docs| - 1;
      LeadExtends(docs[n].flat, BLANK);
      assert docs[n].flat.buf + [] == docs[n].flat.buf;
      assert docs == docs[..n] + [docs[n]];
    }
  }

  // ----- A doclist being written

  /** The doclist holds the entries `xs`, except that the bytes `rest` are still to come. */
  ghost predicate Streaming(f: Flat, xs: seq<Encoded>, rest: bytes) {
    && Chain(ReadEntry, NextRowid, xs, 0) && Agree(f.marks, xs, 0)
    && f.buf + rest == Joined(xs) && forall m :: m in f.marks ==> m < |f.buf|
  }

  lemma {:induction false} ChainNonEmpty(read: EntryReader, next: RowidStep, xs: seq<Encoded>, before: int)
    requires Chain(read, next, xs, before)
    ensures forall x :: x in xs ==> x.b != []
    decreases xs
  {
    if xs != [] {
      ChainNonEmpty(read, next, xs[1..], xs[0].post.rowid);
      forall x | x in xs
        ensures x.b != []
      {
        assert x == xs[0] || x in xs[1..];
      }
    }
  }

  lemma {:induction false} StreamsNothing()
    ensures Streaming(NOTHING, [], [])
  {
  }

  // The first bytes of one entry more.
  lemma {:induction false} StreamEntry(f: Flat, xs: seq<Encoded>, x: Encoded, b: bytes, rest: bytes, mark: bool)
    requires Streaming(f, xs, []) && StandsFor(ReadEntry, NextRowid, x, LastRowid(xs, 0))
    requires x.b == b + rest && b != [] && (x.abs <==> f.buf == [] || mark)
    ensures Streaming(Grow(f, b, mark), xs + [x], rest)
  {
    var g := Grow(f, b, mark);
    assert f.buf + [] == f.buf;
    ChainSnoc(ReadEntry, NextRowid, xs, x, 0);
    ChainNonEmpty(ReadEntry, NextRowid, xs, 0);
    JoinedSnoc(xs, x);
    Assoc(f.buf, b, rest);
    AgreeSnoc(f.marks, g.marks, xs, x, 0, |f.buf|);
  }

  lemma {:induction false} StreamMore(f: Flat, xs: seq<Encoded>, b: bytes, rest: bytes)
    requires Streaming(f, xs, b + rest)
    ensures Streaming(Grow(f, b, false), xs, rest)
  {
    Assoc(f.buf, b, rest);
  }

  lemma {:induction false} Streamed(f: Flat, xs: seq<Encoded>)
    requires Streaming(f, xs, [])
    ensures DecodeFlat(f) == Ok(Posts(xs))
  {
    assert f.buf + [] == f.buf;
    DoclistReadsBack(f, xs);
  }
}
