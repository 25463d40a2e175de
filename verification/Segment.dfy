/** A whole segment: written with either writer and any page size, it reads back. */
module Segment {
  import Seqs
  import opened Bytes
  import opened Poslist
  import opened SegLeaf
  import opened SegRead
  import opened Doclist
  import opened SegBuild
  import opened SegIdx
  import opened SegWrite

  /** What can be written: keys with the pages' headers in 16 bits, and postings in rowid order. */
  predicate TermsOk(terms: seq<TermPostings>, pgsz: nat) {
    && pgsz + 40 <= 0x1_0000
    && forall i :: 0 <= i < |terms| ==>
         && 0 < |terms[i].key| && PostingsOk(terms[i].postings)
         && (if pgsz < 16 then 16 else pgsz) + |terms[i].key| + 40 <= 0x1_0000
  }

  function NormedTerms(terms: seq<TermPostings>): (r: seq<TermPostings>)
    ensures |r| == |terms|
  {
    seq(|terms|, i requires 0 <= i < |terms| => TermPostings(terms[i].key, NormedAll(terms[i].postings)))
  }

  function KeysOf(terms: seq<TermPostings>): (r: seq<bytes>)
    ensures |r| == |terms| && forall i :: 0 <= i < |r| ==> r[i] == terms[i].key
  {
    seq(|terms|, i requires 0 <= i < |terms| => terms[i].key)
  }

  // ----- Equal but for empty columns at the end

  function ColumnOf(cols: seq<seq<nat>>, c: nat): seq<nat> {
    if c < |cols| then cols[c] else []
  }

  ghost predicate SamePosting(p: Posting, q: Posting) {
    p.rowid == q.rowid && p.del == q.del && forall c: nat :: ColumnOf(p.cols, c) == ColumnOf(q.cols, c)
  }

  ghost predicate SameTerm(a: TermPostings, b: TermPostings) {
    && a.key == b.key && |a.postings| == |b.postings|
    && forall i :: 0 <= i < |a.postings| ==> SamePosting(a.postings[i], b.postings[i])
  }

  ghost predicate SameTerms(a: seq<TermPostings>, b: seq<TermPostings>) {
    |a| == |b| && forall i :: 0 <= i < |a| ==> SameTerm(a[i], b[i])
  }

  lemma {:induction false} NormedSame(p: Posting)
    ensures SamePosting(Normed(p), p)
  {
    forall c: nat
      ensures ColumnOf(Normed(p).cols, c) == ColumnOf(p.cols, c)
    {
      if c < |p.cols| {
        NormKeeps(p.cols, |p.cols|, c);
      } else if p.cols == [] {
        assert Normed(p).cols == [[]];
      }
    }
  }

  lemma {:induction false} NormedTermsSame(terms: seq<TermPostings>)
    ensures SameTerms(NormedTerms(terms), terms)
  {
    forall i | 0 <= i < |terms|
      ensures SameTerm(NormedTerms(terms)[i], terms[i])
    {
      forall j | 0 <= j < |terms[i].postings|
        ensures SamePosting(NormedTerms(terms)[i].postings[j], terms[i].postings[j])
      {
        NormedSame(terms[i].postings[j]);
      }
    }
  }

  // ----- What the pages hold

  lemma {:induction false} DecodeSnoc(docs: seq<Doc>, d: Doc, terms: seq<TermPostings>, ps: seq<Posting>)
    requires DecodeDocs(docs) == Ok(terms) && DecodeFlat(d.flat) == Ok(ps)
    ensures DecodeDocs(docs + [d]) == Ok(terms + [TermPostings(d.key, ps)])
    decreases docs
  {
    var all := docs + [d];
    if docs == [] {
      assert all == [d] && all[1..] == docs;
      assert [TermPostings(d.key, ps)] + terms == terms + [TermPostings(d.key, ps)];
    } else {
      DecodeSnoc(docs[1..], d, terms[1..], ps);
      assert all[1..] == docs[1..] + [d] && all[0] == docs[0];
      Seqs.Assoc([terms[0]], terms[1..], [TermPostings(d.key, ps)]);
      assert [terms[0]] + terms[1..] == terms;
    }
  }

  // What is decoded has the keys of the doclists.
  lemma {:induction false} DecodedKeys(docs: seq<Doc>, i: nat)
    requires DecodeDocs(docs).Ok? && i < |docs|
    ensures |DecodeDocs(docs).value| == |docs| && DecodeDocs(docs).value[i].key == docs[i].key
    decreases docs
  {
    if |docs| > 1 {
      DecodedKeys(docs[1..], if i == 0 then 0 else i - 1);
    }
  }

  lemma {:induction false} DocKeys(ls: seq<Leaf>)
    ensures |ReadFrom([], ls)| == |AllKeys(ls)|
    ensures forall i :: 0 <= i < |AllKeys(ls)| ==> ReadFrom([], ls)[i].key == AllKeys(ls)[i]
    decreases ls
  {
    if ls != [] {
      var n := |ls| - 1;
      assert ls == ls[..n] + [ls[n]];
      ReadSnoc([], ls[..n], ls[n]);
      DocKeys(ls[..n]);
      StepKeys(ReadFrom([], ls[..n]), ls[n]);
    }
  }

  lemma {:induction false} StepKeys(docs: seq<Doc>, l: Leaf)
    ensures |Step(docs, l)| == |docs| + |l.parts|
    ensures forall i :: 0 <= i < |docs| ==> Step(docs, l)[i].key == docs[i].key
    ensures forall i :: 0 <= i < |l.parts| ==> Step(docs, l)[|docs| + i].key == l.parts[i].key
  {
  }

  // The writer after its last page.
  lemma {:induction false} Closed(d: Draft, s: Shelf, c: Pages, terms: seq<TermPostings>)
    requires Describes(d, s, c) && c.cur == BLANK && DecodeDocs(c.docs) == Ok(terms)
    ensures ReadSegment(s.leaves) == Ok(terms) && PagesOf(s.leaves, c.done) && s.ix.rows == IdxRows(c.done)
    ensures AllKeys(c.done) == KeysOf(terms)
  {
    Described(d, s, c);
    BlankStep(ReadFrom([], c.done));
    SegmentReads(s.leaves, c.done);
    DocKeys(c.done);
    if c.docs != [] {
      forall i | 0 <= i < |c.docs|
        ensures |terms| == |c.docs| && AllKeys(c.done)[i] == terms[i].key
      {
        DecodedKeys(c.docs, i);
      }
      DecodedKeys(c.docs, 0);
    }
  }

  lemma {:induction false} MoreTerms(terms: seq<TermPostings>, i: nat, was: seq<Doc>, docs: seq<Doc>)
    requires i < |terms| && DecodeDocs(was) == Ok(NormedTerms(terms[..i]))
    requires |docs| == |was| + 1 && docs[..|was|] == was && docs[|was|].key == terms[i].key
    requires DecodeFlat(docs[|was|].flat) == Ok(NormedAll(terms[i].postings))
    ensures DecodeDocs(docs) == Ok(NormedTerms(terms[..i + 1]))
  {
    var d := docs[|was|];
    assert docs == was + [d];
    DecodeSnoc(was, d, NormedTerms(terms[..i]), NormedAll(terms[i].postings));
    assert NormedTerms(terms[..i + 1])
        == NormedTerms(terms[..i]) + [TermPostings(terms[i].key, NormedAll(terms[i].postings))];
  }

  /** Write a segment. Its pages read back as the terms written, the postings equal but for empty columns
      at the end, and the index rows are those of the leaves. */
  method WriteSegment(terms: seq<TermPostings>, pgsz: nat, mergeMode: bool)
    returns (leaves: seq<bytes>, idx: seq<IdxRow>, ghost ls: seq<Leaf>)
    requires TermsOk(terms, pgsz)
    ensures ReadSegment(leaves) == Ok(NormedTerms(terms)) && SameTerms(NormedTerms(terms), terms)
    ensures PagesOf(leaves, ls) && idx == IdxRows(ls) && AllKeys(ls) == KeysOf(terms)
    ensures terms == [] <==> leaves == []
  {
    NormedTermsSame(terms);
    if terms == [] {
      leaves, idx, ls := [], [], [];
      SegmentReads(leaves, ls);
      assert NormedTerms(terms) == [];
      return;
    }
    var w := new SegWriter(pgsz, mergeMode);
    for i := 0 to |terms|
      invariant w.Valid() && DecodeDocs(w.content.docs) == Ok(NormedTerms(terms[..i]))
    {
      ghost var was := w.content.docs;
      w.AddKey(terms[i].key, terms[i].postings);
      MoreTerms(terms, i, was, w.content.docs);
    }
    assert terms[..|terms|] == terms;
    w.Flush();
    Closed(w.Page(), w.Finished(), w.content, NormedTerms(terms));
    leaves, idx, ls := w.leaves, w.ix.rows, w.content.done;
  }

  /** The index rows lead to a leaf, and `key` is on it. */
  ghost predicate RoutedTo(ls: seq<Leaf>, key: bytes) {
    var r := Route(IdxRows(ls), key);
    r.Some? && 0 < r.value <= |ls| && OnLeaf(ls[r.value - 1], key)
  }

  ghost predicate OnLeaf(l: Leaf, key: bytes) {
    exists ti :: 0 <= ti < |l.parts| && l.parts[ti].key == key
  }

  /** Every term written is on the leaf that the index rows lead to, and the separators strictly ascend. */
  lemma {:induction false} SegmentRoutes(terms: seq<TermPostings>, ls: seq<Leaf>)
    requires AllKeys(ls) == KeysOf(terms) && KeysAscend(KeysOf(terms))
    ensures RowsAscend(IdxRows(ls)) && forall i :: 0 <= i < |terms| ==> RoutedTo(ls, terms[i].key)
  {
    SeparatorsAscend(ls);
    forall i | 0 <= i < |terms|
      ensures RoutedTo(ls, terms[i].key)
    {
      assert AllKeys(ls)[i] == terms[i].key;
      var li, ti := PlaceOfKey(ls, i);
      Routes(ls, li, ti);
    }
  }

  lemma {:induction false} PlaceOfKey(ls: seq<Leaf>, i: nat) returns (li: nat, ti: nat)
    requires i < |AllKeys(ls)|
    ensures li < |ls| && ti < |ls[li].parts| && ls[li].parts[ti].key == AllKeys(ls)[i]
    decreases ls
  {
    var n := |ls| - 1;
    if i < |AllKeys(ls[..n])| {
      li, ti := PlaceOfKey(ls[..n], i);
    } else {
      li, ti := n, i - |AllKeys(ls[..n])|;
    }
  }
}
