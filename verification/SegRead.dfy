/** Reading a segment: stitching the pieces of every doclist together, over the leaves it spills onto. */
module SegRead {
  import opened Bytes
  import BigEndian
  import opened SegLeaf
  import opened Poslist
  import Varint

  /** A run of doclist bytes from one leaf; `abs` if it begins with an absolute rowid. */
  datatype Run = Run(bytes: bytes, abs: bool)

  // ----- Gathering, as the reader does it

  // The runs on the leaves after the one a term starts on, up to the next term.
  function Spill(leaves: seq<bytes>, views: seq<View>, li: nat): Result<seq<Run>>
    requires |leaves| == |views|
    decreases |leaves| - li
  {
    if li >= |leaves| then Ok([])
    else
      var view, leaf := views[li], leaves[li];
      var boundary := if view.terms != [] then view.terms[0].start else view.footer;
      var tailEnd := if view.first == 0 then boundary else view.first;
      if tailEnd < 4 || tailEnd > boundary || boundary > view.footer || view.footer > |leaf| then Corrupt
      else
        var here := [Run(leaf[4..tailEnd], false)]
                    + (if view.first != 0 then [Run(leaf[view.first..boundary], true)] else []);
        if view.terms != [] then Ok(here)
        else
          match Spill(leaves, views, li + 1)
          case Corrupt => Corrupt
          case Ok(more) => Ok(here + more)
  }

  /** The doclist of term `ti` of leaf `li`: what follows its record there and, if no other term starts on
      that leaf, what spilled onto the following leaves. */
  function Gather(leaves: seq<bytes>, views: seq<View>, li: nat, ti: nat): Result<seq<Run>>
    requires |leaves| == |views| && li < |leaves| && ti < |views[li].terms|
  {
    var view, leaf := views[li], leaves[li];
    var last := ti + 1 == |view.terms|;
    var from, to := view.terms[ti].doc, if last then view.footer else view.terms[ti + 1].start;
    if to < from || to > view.footer || view.footer > |leaf| then Corrupt
    else
      var first := Run(leaf[from..to], true);
      if !last then Ok([first])
      else
        match Spill(leaves, views, li + 1)
        case Corrupt => Corrupt
        case Ok(more) => Ok([first] + more)
  }

  // ----- The same on the content of leaves

  function LeadRuns(l: Leaf): seq<Run> {
    [Run(l.pre, false)] + (if l.abs then [Run(l.post, true)] else [])
  }

  function SpillOf(ls: seq<Leaf>): seq<Run> {
    if ls == [] then []
    else LeadRuns(ls[0]) + (if ls[0].parts == [] then SpillOf(ls[1..]) else [])
  }

  function RunsOf(ls: seq<Leaf>, li: nat, ti: nat): seq<Run>
    requires li < |ls| && ti < |ls[li].parts|
  {
    [Run(ls[li].parts[ti].doc, true)] + (if ti + 1 == |ls[li].parts| then SpillOf(ls[li + 1..]) else [])
  }

  ghost predicate IsPage(b: bytes, l: Leaf) {
    LeafOk(l) && b == LeafBytes(l)
  }

  ghost predicate IsView(v: View, l: Leaf) {
    LeafOk(l) && v == ViewOf(l)
  }

  // These bytes are the pages of these leaves.
  ghost predicate PagesOf(bs: seq<bytes>, ls: seq<Leaf>) {
    |bs| == |ls| && forall i {:trigger IsPage(bs[i], ls[i])} :: 0 <= i < |ls| ==> IsPage(bs[i], ls[i])
  }

  ghost predicate ViewsOf(views: seq<View>, ls: seq<Leaf>) {
    |views| == |ls| && forall i {:trigger IsView(views[i], ls[i])} :: 0 <= i < |ls| ==> IsView(views[i], ls[i])
  }

  // Where the lead of a leaf lies on its page.
  lemma {:induction false} LeadSlices(l: Leaf)
    requires LeafOk(l)
    ensures var b, n := LeafBytes(l), 4 + |Lead(l)|;
            && n <= 4 + |Body(l)| <= |b| && b[4..n] == Lead(l)
            && b[4..4 + |l.pre|] == l.pre && b[4 + |l.pre|..n] == l.post
  {
    LeafFooter(l);
    var h, cat, foot := BigEndian.Be16(FirstRowid(l)) + BigEndian.Be16(4 + |Body(l)|),
                        Cat(Chunks(l.parts, None)), Pgidx(TermOffsets(l), 0);
    LeadIn(h, l.pre, l.post, cat, foot, LeafBytes(l));
  }

  lemma {:induction false} LeadIn(h: bytes, pre: bytes, post: bytes, cat: bytes, foot: bytes, b: bytes)
    requires |h| == 4 && b == h + ((pre + post) + cat) + foot
    ensures 4 + |(pre + post) + cat| <= |b|
    ensures b[4..4 + |pre + post|] == pre + post && b[4..4 + |pre|] == pre && b[4 + |pre|..4 + |pre + post|] == post
  {
    assert b == h + (pre + (post + (cat + foot)));
  }

  // The first term starts where the lead ends, and without terms the footer does.
  lemma {:induction false} Boundary(l: Leaf)
    requires LeafOk(l)
    ensures var v := ViewOf(l);
            && (v.terms == [] <==> l.parts == [])
            && (if v.terms != [] then v.terms[0].start else v.footer) == 4 + |Lead(l)|
  {
  }

  lemma {:induction false} SpillReads(bs: seq<bytes>, views: seq<View>, ls: seq<Leaf>, li: nat)
    requires PagesOf(bs, ls) && ViewsOf(views, ls) && li <= |ls|
    ensures Spill(bs, views, li) == Ok(SpillOf(ls[li..]))
    decreases |ls| - li
  {
    if li < |ls| {
      var l := ls[li];
      assert IsPage(bs[li], l) && IsView(views[li], l);
      LeadSlices(l);
      Boundary(l);
      SpillReads(bs, views, ls, li + 1);
      assert ls[li..][0] == l && ls[li..][1..] == ls[li + 1..];
      SpillStep(bs, views, li, l, SpillOf(ls[li + 1..]));
    }
  }

  lemma {:induction false} SpillStep(bs: seq<bytes>, views: seq<View>, li: nat, l: Leaf, more: seq<Run>)
    requires |bs| == |views| && li < |bs| && LeafOk(l) && bs[li] == LeafBytes(l) && views[li] == ViewOf(l)
    requires var b, n := LeafBytes(l), 4 + |Lead(l)|;
             && n <= 4 + |Body(l)| <= |b|
             && b[4..n] == Lead(l) && b[4..4 + |l.pre|] == l.pre && b[4 + |l.pre|..n] == l.post
    requires var v := ViewOf(l);
             && (v.terms == [] <==> l.parts == [])
             && (if v.terms != [] then v.terms[0].start else v.footer) == 4 + |Lead(l)|
    requires Spill(bs, views, li + 1) == Ok(more)
    ensures Spill(bs, views, li) == Ok(LeadRuns(l) + (if l.parts == [] then more else []))
  {
    if !l.abs {
      assert Lead(l) == l.pre;
    }
    assert LeadRuns(l) + [] == LeadRuns(l);
  }

  // ----- The doclist after a record

  // The doclist of chunk `ti`, found through the offsets of the records.
  lemma {:induction false} ChunkDoc(leaf: bytes, cs: seq<Chunk>, keys: seq<bytes>, at: nat, ti: nat)
    requires |cs| == |keys| && ti < |cs| && at + |Cat(cs)| <= |leaf| && leaf[at..at + |Cat(cs)|] == Cat(cs)
    ensures var ts, end := TermsAt(cs, keys, at), at + |Cat(cs)|;
            var to := if ti + 1 == |cs| then end else ts[ti + 1].start;
            at <= ts[ti].doc <= to <= end && leaf[ts[ti].doc..to] == cs[ti].doc
    decreases cs
  {
    var rec, doc := cs[0].rec, cs[0].doc;
    var next := at + |rec| + |doc|;
    FirstChunk(leaf, at, rec, doc, Cat(cs[1..]));
    if ti > 0 {
      ChunkDoc(leaf, cs[1..], keys[1..], next, ti - 1);
    } else if |cs| > 1 {
      assert TermsAt(cs, keys, at)[1] == TermsAt(cs[1..], keys[1..], next)[0];
    }
  }

  lemma {:induction false} FirstChunk(leaf: bytes, at: nat, rec: bytes, doc: bytes, rest: bytes)
    requires at + |rec + doc + rest| <= |leaf| && leaf[at..at + |rec + doc + rest|] == rec + doc + rest
    ensures leaf[at + |rec|..at + |rec| + |doc|] == doc
    ensures leaf[at + |rec| + |doc|..at + |rec| + |doc| + |rest|] == rest
  {
    PartsOfSlice(leaf, at, rec + doc, rest);
    PartsOfSlice(leaf, at, rec, doc);
  }

  lemma {:induction false} ChunkDocIs(parts: seq<Part>, prev: Option<bytes>, ti: nat)
    requires KeysOk(parts) && ti < |parts|
    ensures Chunks(parts, prev)[ti].doc == parts[ti].doc
    decreases parts
  {
    if ti > 0 {
      ChunkDocIs(parts[1..], Some(parts[0].key), ti - 1);
    }
  }

  lemma {:induction false} DocSlice(l: Leaf, ti: nat)
    requires LeafOk(l) && ti < |l.parts|
    ensures var v, b := ViewOf(l), LeafBytes(l);
            && |v.terms| == |l.parts| && v.footer <= |b|
            && var to := if ti + 1 == |v.terms| then v.footer else v.terms[ti + 1].start;
            && v.terms[ti].doc <= to <= v.footer && b[v.terms[ti].doc..to] == l.parts[ti].doc
  {
    LeafFooter(l);
    LeafShape(l);
    ChunkDoc(LeafBytes(l), Chunks(l.parts, None), Keys(l.parts), 4 + |Lead(l)|, ti);
    ChunkDocIs(l.parts, None, ti);
  }

  lemma {:induction false} GatherIs(bs: seq<bytes>, views: seq<View>, li: nat, ti: nat, doc: bytes, more: seq<Run>)
    requires |bs| == |views| && li < |bs| && ti < |views[li].terms|
    requires var v, b := views[li], bs[li];
             && v.footer <= |b|
             && var to := if ti + 1 == |v.terms| then v.footer else v.terms[ti + 1].start;
             && v.terms[ti].doc <= to <= v.footer && b[v.terms[ti].doc..to] == doc
    requires Spill(bs, views, li + 1) == Ok(more)
    ensures Gather(bs, views, li, ti)
         == Ok([Run(doc, true)] + (if ti + 1 == |views[li].terms| then more else []))
  {
    assert [Run(doc, true)] + [] == [Run(doc, true)];
  }

  /** Gathering from the pages of a segment gives the runs of the term. */
  lemma {:induction false} GatherReads(bs: seq<bytes>, views: seq<View>, ls: seq<Leaf>, li: nat, ti: nat)
    requires PagesOf(bs, ls) && ViewsOf(views, ls) && li < |ls| && ti < |ls[li].parts|
    ensures ti < |views[li].terms| && Gather(bs, views, li, ti) == Ok(RunsOf(ls, li, ti))
  {
    assert IsPage(bs[li], ls[li]) && IsView(views[li], ls[li]);
    DocSlice(ls[li], ti);
    SpillReads(bs, views, ls, li + 1);
    GatherIs(bs, views, li, ti, ls[li].parts[ti].doc, SpillOf(ls[li + 1..]));
  }

  // ----- Flattened doclists

  /** A doclist put together: its bytes, and the offsets at which a rowid is absolute. */
  datatype Flat = Flat(buf: bytes, marks: set<nat>)

  function Extend(f: Flat, r: Run): Flat {
    Flat(f.buf + r.bytes, if r.abs && r.bytes != [] then f.marks + {|f.buf|} else f.marks)
  }

  function ExtendAll(f: Flat, runs: seq<Run>): Flat
    decreases runs
  {
    if runs == [] then f else ExtendAll(Extend(f, runs[0]), runs[1..])
  }

  const NOTHING := Flat([], {})

  lemma {:induction false} ExtendCat(f: Flat, a: seq<Run>, b: seq<Run>)
    ensures ExtendAll(f, a + b) == ExtendAll(ExtendAll(f, a), b)
    decreases a
  {
    if a == [] {
      assert a + b == b;
    } else {
      assert (a + b)[1..] == a[1..] + b && (a + b)[0] == a[0];
      ExtendCat(Extend(f, a[0]), a[1..], b);
    }
  }

  /** A term and its doclist. */
  datatype Doc = Doc(key: bytes, flat: Flat)

  function StartDoc(p: Part): Doc {
    Doc(p.key, Extend(NOTHING, Run(p.doc, true)))
  }

  function StartDocs(parts: seq<Part>): (r: seq<Doc>)
    ensures |r| == |parts|
  {
    seq(|parts|, i requires 0 <= i < |parts| => StartDoc(parts[i]))
  }

  // The last doclist goes on.
  function ExtendLast(docs: seq<Doc>, runs: seq<Run>): (r: seq<Doc>)
    ensures |r| == |docs|
  {
    if docs == [] then []
    else
      var n := |docs| - 1;
      docs[..n] + [Doc(docs[n].key, ExtendAll(docs[n].flat, runs))]
  }

  /** The doclists after one more leaf. */
  function Step(docs: seq<Doc>, l: Leaf): seq<Doc> {
    ExtendLast(docs, LeadRuns(l)) + StartDocs(l.parts)
  }

  function ReadFrom(docs: seq<Doc>, ls: seq<Leaf>): seq<Doc>
    decreases ls
  {
    if ls == [] then docs else ReadFrom(Step(docs, ls[0]), ls[1..])
  }

  lemma {:induction false} ReadSnoc(docs: seq<Doc>, ls: seq<Leaf>, l: Leaf)
    ensures ReadFrom(docs, ls + [l]) == Step(ReadFrom(docs, ls), l)
    decreases ls
  {
    if ls == [] {
      assert [] + [l] == [l] && [l][1..] == [];
    } else {
      assert (ls + [l])[1..] == ls[1..] + [l] && (ls + [l])[0] == ls[0];
      ReadSnoc(Step(docs, ls[0]), ls[1..], l);
    }
  }

  // ----- The reader's order: term by term, each with its spill

  function DocAt(ls: seq<Leaf>, li: nat, ti: nat): Doc
    requires li < |ls| && ti < |ls[li].parts|
  {
    Doc(ls[li].parts[ti].key, ExtendAll(NOTHING, RunsOf(ls, li, ti)))
  }

  function LeafDocs(ls: seq<Leaf>, li: nat, ti: nat): seq<Doc>
    requires li < |ls| && ti <= |ls[li].parts|
    decreases |ls[li].parts| - ti
  {
    if ti == |ls[li].parts| then [] else [DocAt(ls, li, ti)] + LeafDocs(ls, li, ti + 1)
  }

  function AllDocs(ls: seq<Leaf>, li: nat): seq<Doc>
    requires li <= |ls|
    decreases |ls| - li
  {
    if li == |ls| then [] else LeafDocs(ls, li, 0) + AllDocs(ls, li + 1)
  }

  lemma {:induction false} ExtendLastTwice(docs: seq<Doc>, a: seq<Run>, b: seq<Run>)
    ensures ExtendLast(ExtendLast(docs, a), b) == ExtendLast(docs, a + b)
  {
    if docs != [] {
      var n := |docs| - 1;
      ExtendCat(docs[n].flat, a, b);
      var once := ExtendLast(docs, a);
      assert once[..n] == docs[..n] && once[n].key == docs[n].key;
    }
  }

  lemma {:induction false} ExtendLastOf(a: seq<Doc>, b: seq<Doc>, runs: seq<Run>)
    requires b != []
    ensures ExtendLast(a + b, runs) == a + ExtendLast(b, runs)
  {
    var n := |b| - 1;
    assert (a + b)[..|a| + n] == a + b[..n] && (a + b)[|a| + n] == b[n];
  }

  lemma {:induction false} ExtendNothing(docs: seq<Doc>)
    ensures ExtendLast(docs, []) == docs
  {
    if docs != [] {
      var n := |docs| - 1;
      assert docs[..n] + [docs[n]] == docs;
    }
  }

  // The doclists that start on a leaf, the last with its spill.
  lemma {:induction false} LeafDocsAre(ls: seq<Leaf>, li: nat, ti: nat)
    requires li < |ls| && ti <= |ls[li].parts|
    ensures LeafDocs(ls, li, ti) == ExtendLast(StartDocs(ls[li].parts[ti..]), SpillOf(ls[li + 1..]))
    decreases |ls[li].parts| - ti
  {
    var parts, spill := ls[li].parts, SpillOf(ls[li + 1..]);
    if ti < |parts| {
      LeafDocsAre(ls, li, ti + 1);
      DocIs(ls, li, ti);
      assert StartDocs(parts[ti..]) == [StartDoc(parts[ti])] + StartDocs(parts[ti + 1..]);
      if ti + 1 == |parts| {
        assert StartDocs(parts[ti + 1..]) == [] && LeafDocs(ls, li, ti + 1) == [];
        OneExtended(StartDoc(parts[ti]), spill);
      } else {
        ExtendLastOf([StartDoc(parts[ti])], StartDocs(parts[ti + 1..]), spill);
      }
    } else {
      assert StartDocs(parts[ti..]) == [];
    }
  }

  lemma {:induction false} OneExtended(d: Doc, runs: seq<Run>)
    ensures ExtendLast([d] + [], runs) == [Doc(d.key, ExtendAll(d.flat, runs))]
  {
    assert [d] + [] == [d] && [d][..0] == [];
  }

  lemma {:induction false} DocIs(ls: seq<Leaf>, li: nat, ti: nat)
    requires li < |ls| && ti < |ls[li].parts|
    ensures DocAt(ls, li, ti)
         == if ti + 1 == |ls[li].parts| then
              Doc(ls[li].parts[ti].key, ExtendAll(StartDoc(ls[li].parts[ti]).flat, SpillOf(ls[li + 1..])))
            else StartDoc(ls[li].parts[ti])
  {
    var first, spill := Run(ls[li].parts[ti].doc, true), SpillOf(ls[li + 1..]);
    ExtendOne(NOTHING, first, spill);
    ExtendOne(NOTHING, first, []);
  }

  lemma {:induction false} ExtendOne(f: Flat, r: Run, more: seq<Run>)
    ensures ExtendAll(f, [r] + more) == ExtendAll(Extend(f, r), more)
  {
    assert ([r] + more)[1..] == more;
  }

  /** Going through the leaves once finds the doclists the reader gathers term by term. */
  lemma {:induction false} GatherIsFold(docs: seq<Doc>, ls: seq<Leaf>, li: nat)
    requires li <= |ls|
    ensures ReadFrom(docs, ls[li..]) == ExtendLast(docs, SpillOf(ls[li..])) + AllDocs(ls, li)
    decreases |ls| - li
  {
    if li == |ls| {
      ExtendNothing(docs);
    } else {
      var l, rest := ls[li], ls[li + 1..];
      assert ls[li..][0] == l && ls[li..][1..] == rest;
      GatherIsFold(Step(docs, l), ls, li + 1);
      LeafDocsAre(ls, li, 0);
      assert l.parts[0..] == l.parts;
      FoldStep(docs, l, SpillOf(rest), AllDocs(ls, li + 1));
    }
  }

  lemma {:induction false} FoldStep(docs: seq<Doc>, l: Leaf, spill: seq<Run>, more: seq<Doc>)
    ensures ExtendLast(Step(docs, l), spill) + more
         == ExtendLast(docs, LeadRuns(l) + (if l.parts == [] then spill else []))
            + (ExtendLast(StartDocs(l.parts), spill) + more)
  {
    var a, b := ExtendLast(docs, LeadRuns(l)), StartDocs(l.parts);
    if l.parts == [] {
      assert a + b == a;
      ExtendLastTwice(docs, LeadRuns(l), spill);
      assert [] + more == more;
    } else {
      ExtendLastOf(a, b, spill);
      assert LeadRuns(l) + [] == LeadRuns(l);
      assert (a + ExtendLast(b, spill)) + more == a + (ExtendLast(b, spill) + more);
    }
  }

  // ----- Decoding

  // A 64-bit pattern as a signed integer.
  function Signed(v: nat): int {
    if v >= 0x8000_0000_0000_0000 then v - 0x1_0000_0000_0000_0000 else v
  }

  // Addition that wraps around at 64 bits.
  function WrapAdd(a: int, b: int): int {
    Signed((a + b) % 0x1_0000_0000_0000_0000)
  }

  // A rowid field and a position list.
  datatype RawEntry = RawEntry(field: nat, cols: seq<seq<nat>>, del: bool, length: nat)

  function ReadEntry(s: bytes): (r: Result<RawEntry>)
    ensures r.Ok? ==> 0 < r.value.length <= |s|
  {
    match Varint.Decode(s)
    case Truncated => Corrupt
    case Decoded(d, n) =>
      match ReadPoslist(s[n..])
      case Corrupt => Corrupt
      case Ok(e) => Ok(RawEntry(d, e.cols, e.del, n + e.length))
  }

  type EntryReader = bytes -> Result<RawEntry>

  type RowidStep = (bool, int, nat) -> int

  function NextRowid(abs: bool, before: int, field: nat): int {
    if abs then Signed(field) else WrapAdd(before, Signed(field))
  }

  /** The entries in the rest `s` of a doclist, which starts at offset `at`: a rowid, absolute at the
      start and at the marks and else relative to the one before, then a position list. */
  function Entries(read: EntryReader, next: RowidStep, s: bytes, at: nat, marks: set<nat>,
                   rowid: int): Result<seq<Posting>>
    decreases |s|
  {
    if s == [] then Ok([])
    else
      match read(s)
      case Corrupt => Corrupt
      case Ok(e) =>
        if e.length == 0 || e.length > |s| then Corrupt
        else
          var r := next(at == 0 || at in marks, rowid, e.field);
          match Entries(read, next, s[e.length..], at + e.length, marks, r)
          case Corrupt => Corrupt
          case Ok(rest) => Ok([Posting(r, e.cols, e.del)] + rest)
  }

  function DecodeFlat(f: Flat): Result<seq<Posting>> {
    Entries(ReadEntry, NextRowid, f.buf, 0, f.marks, 0)
  }

  /** Decode a doclist from its runs. */
  function DecodeRuns(runs: seq<Run>): Result<seq<Posting>> {
    DecodeFlat(ExtendAll(NOTHING, runs))
  }

  datatype TermPostings = TermPostings(key: bytes, postings: seq<Posting>)

  function ParseAll(bs: seq<bytes>): (r: Result<seq<View>>)
    ensures r.Ok? ==> |r.value| == |bs|
  {
    if bs == [] then Ok([])
    else
      match ParseLeaf(bs[0])
      case Corrupt => Corrupt
      case Ok(v) =>
        match ParseAll(bs[1..])
        case Corrupt => Corrupt
        case Ok(rest) => Ok([v] + rest)
  }

  // The terms from term `ti` of leaf `li` on.
  function TermsFrom(bs: seq<bytes>, views: seq<View>, li: nat, ti: nat): Result<seq<TermPostings>>
    requires |bs| == |views| && (li < |bs| ==> ti <= |views[li].terms|)
    decreases |bs| - li, if li < |bs| then |views[li].terms| - ti else 0
  {
    if li >= |bs| then Ok([])
    else if ti == |views[li].terms| then TermsFrom(bs, views, li + 1, 0)
    else if views[li].terms[ti].key == [] then Corrupt
    else
      match Gather(bs, views, li, ti)
      case Corrupt => Corrupt
      case Ok(runs) =>
        match DecodeRuns(runs)
        case Corrupt => Corrupt
        case Ok(ps) =>
          match TermsFrom(bs, views, li, ti + 1)
          case Corrupt => Corrupt
          case Ok(rest) => Ok([TermPostings(views[li].terms[ti].key, ps)] + rest)
  }

  /** Every term of a segment with its postings, delete markers included. */
  function ReadSegment(bs: seq<bytes>): Result<seq<TermPostings>> {
    match ParseAll(bs)
    case Corrupt => Corrupt
    case Ok(views) => TermsFrom(bs, views, 0, 0)
  }

  // ----- What is read is what the leaves hold

  function DecodeDocs(docs: seq<Doc>): Result<seq<TermPostings>> {
    if docs == [] then Ok([])
    else
      match DecodeFlat(docs[0].flat)
      case Corrupt => Corrupt
      case Ok(ps) =>
        match DecodeDocs(docs[1..])
        case Corrupt => Corrupt
        case Ok(rest) => Ok([TermPostings(docs[0].key, ps)] + rest)
  }

  lemma {:induction false} ParsedAll(bs: seq<bytes>, ls: seq<Leaf>)
    requires PagesOf(bs, ls)
    ensures ParseAll(bs).Ok? && ViewsOf(ParseAll(bs).value, ls)
    decreases bs
  {
    if bs != [] {
      assert IsPage(bs[0], ls[0]);
      LeafReadsBack(ls[0]);
      forall i | 0 <= i < |bs| - 1
        ensures IsPage(bs[1..][i], ls[1..][i])
      {
        assert IsPage(bs[i + 1], ls[i + 1]);
      }
      ParsedAll(bs[1..], ls[1..]);
      ViewsCons(ViewOf(ls[0]), ParseAll(bs[1..]).value, ls);
    }
  }

  lemma {:induction false} ViewsCons(v: View, vs: seq<View>, ls: seq<Leaf>)
    requires ls != [] && LeafOk(ls[0]) && v == ViewOf(ls[0]) && ViewsOf(vs, ls[1..])
    ensures ViewsOf([v] + vs, ls)
  {
    forall i | 0 <= i < |ls|
      ensures IsView(([v] + vs)[i], ls[i])
    {
      assert i > 0 ==> IsView(vs[i - 1], ls[1..][i - 1]);
    }
  }

  lemma {:induction false} KeyAt(cs: seq<Chunk>, keys: seq<bytes>, at: nat, i: nat)
    requires |cs| == |keys| && i < |cs|
    ensures TermsAt(cs, keys, at)[i].key == keys[i]
    decreases cs
  {
    if i > 0 {
      KeyAt(cs[1..], keys[1..], at + |cs[0].rec| + |cs[0].doc|, i - 1);
    }
  }

  lemma {:induction false} ViewTerms(views: seq<View>, ls: seq<Leaf>, li: nat)
    requires ViewsOf(views, ls) && li < |ls|
    ensures |views[li].terms| == |ls[li].parts|
    ensures forall i :: 0 <= i < |ls[li].parts| ==> views[li].terms[i].key == ls[li].parts[i].key != []
  {
    var l := ls[li];
    assert IsView(views[li], l);
    forall i | 0 <= i < |l.parts|
      ensures views[li].terms[i].key == l.parts[i].key
    {
      KeyAt(Chunks(l.parts, None), Keys(l.parts), 4 + |Lead(l)|, i);
    }
  }

  lemma {:induction false} TermsFromStep(bs: seq<bytes>, views: seq<View>, li: nat, ti: nat, d: Doc, runs: seq<Run>,
                                         more: seq<Doc>)
    requires |bs| == |views| && li < |bs| && ti < |views[li].terms| && Gather(bs, views, li, ti) == Ok(runs)
    requires d == Doc(views[li].terms[ti].key, ExtendAll(NOTHING, runs)) && d.key != []
    requires TermsFrom(bs, views, li, ti + 1) == DecodeDocs(more)
    ensures TermsFrom(bs, views, li, ti) == DecodeDocs([d] + more)
  {
    assert ([d] + more)[1..] == more;
  }

  // The doclists from term `ti` of leaf `li` on.
  ghost function DocsFrom(ls: seq<Leaf>, li: nat, ti: nat): seq<Doc>
    requires li < |ls| && ti <= |ls[li].parts|
  {
    LeafDocs(ls, li, ti) + AllDocs(ls, li + 1)
  }

  lemma {:induction false} DocsFromNext(ls: seq<Leaf>, li: nat, ti: nat)
    requires li < |ls| && ti < |ls[li].parts|
    ensures DocsFrom(ls, li, ti) == [DocAt(ls, li, ti)] + DocsFrom(ls, li, ti + 1)
  {
  }

  lemma {:induction false} DocsFromEnd(ls: seq<Leaf>, li: nat)
    requires li < |ls|
    ensures DocsFrom(ls, li, |ls[li].parts|) == if li + 1 < |ls| then DocsFrom(ls, li + 1, 0) else []
  {
  }

  lemma {:induction false} TermsFromIs(bs: seq<bytes>, views: seq<View>, ls: seq<Leaf>, li: nat, ti: nat)
    requires PagesOf(bs, ls) && ViewsOf(views, ls) && li < |ls| && ti <= |ls[li].parts|
    ensures |views[li].terms| == |ls[li].parts| && TermsFrom(bs, views, li, ti) == DecodeDocs(DocsFrom(ls, li, ti))
    decreases |ls| - li, |ls[li].parts| - ti
  {
    ViewTerms(views, ls, li);
    if ti == |ls[li].parts| {
      DocsFromEnd(ls, li);
      if li + 1 < |ls| {
        TermsFromIs(bs, views, ls, li + 1, 0);
      }
    } else {
      GatherReads(bs, views, ls, li, ti);
      TermsFromIs(bs, views, ls, li, ti + 1);
      DocsFromNext(ls, li, ti);
      TermsFromStep(bs, views, li, ti, DocAt(ls, li, ti), RunsOf(ls, li, ti), DocsFrom(ls, li, ti + 1));
    }
  }

  /** Reading the pages of a segment gives the doclists its leaves hold, however they are cut. */
  lemma {:induction false} SegmentReads(bs: seq<bytes>, ls: seq<Leaf>)
    requires PagesOf(bs, ls)
    ensures ReadSegment(bs) == DecodeDocs(ReadFrom([], ls))
  {
    ParsedAll(bs, ls);
    GatherIsFold([], ls, 0);
    assert ls[0..] == ls;
    var docs: seq<Doc> := [];
    assert ExtendLast(docs, SpillOf(ls)) + AllDocs(ls, 0) == AllDocs(ls, 0);
    if ls != [] {
      TermsFromIs(bs, ParseAll(bs).value, ls, 0, 0);
    }
  }
}
