/** The segments and the documents: the live postings are those of the documents, and a flush and a merge
    keep it so. */
module SegLive {
  import opened Bytes
  import opened Poslist
  import opened SegRead
  import opened Doclist
  import opened SegWrite
  import opened Segment
  import opened Postings
  import opened SegMerge
  import opened SegDocs

  type Documents = map<int, Document>

  // ----- Postings as they are read

  lemma {:induction false} NormFull(cols: seq<seq<nat>>, c: nat)
    requires 0 < c <= |cols| && (c == 1 || cols[c - 1] != [])
    ensures |Norm(cols, c)| == c && forall i :: 0 <= i < c ==> Norm(cols, c)[i] == cols[i]
  {
    forall i | 0 <= i < c
      ensures |Norm(cols, c)| == c && Norm(cols, c)[i] == cols[i]
    {
      if cols[c - 1] == [] {
        assert Norm(cols, 0) == [[]];
      } else {
        NormKeeps(cols, c, i);
      }
    }
  }

  // Norm leaves one column, or a last one that is not empty.
  lemma {:induction false} NormTight(cols: seq<seq<nat>>, c: nat)
    requires c <= |cols|
    ensures var n := Norm(cols, c); |n| == 1 || n[|n| - 1] != []
  {
    if c > 0 && cols[c - 1] == [] {
      NormTight(cols, c - 1);
    }
  }

  lemma {:induction false} NormedTwice(p: Posting)
    ensures Normed(Normed(p)) == Normed(p)
  {
    var n := Norm(p.cols, |p.cols|);
    NormTight(p.cols, |p.cols|);
    NormFull(n, |n|);
    assert Norm(n, |n|) == n;
  }

  lemma {:induction false} NormedPositionless(p: Posting)
    ensures Positionless(Normed(p)) <==> Positionless(p)
  {
    NormedSame(p);
    forall c | 0 <= c < |p.cols|
      ensures Positionless(Normed(p)) ==> p.cols[c] == []
    {
      assert ColumnOf(Normed(p).cols, c) == ColumnOf(p.cols, c);
    }
    forall c | 0 <= c < |Normed(p).cols|
      ensures Positionless(p) ==> Normed(p).cols[c] == []
    {
      assert ColumnOf(Normed(p).cols, c) == ColumnOf(p.cols, c);
    }
  }

  lemma {:induction false} NormedModest(p: Posting)
    requires Modest(p)
    ensures Modest(Normed(p))
  {
    NormedSame(p);
    forall c | 0 <= c < |Normed(p).cols|
      ensures PositionsOk(Normed(p).cols[c]) && |Normed(p).cols[c]| <= TWO_32
    {
      assert ColumnOf(Normed(p).cols, c) == ColumnOf(p.cols, c);
    }
  }

  lemma {:induction false} NormedAt(ps: seq<Posting>, r: int)
    ensures At(NormedAll(ps), r) == NormedOption(At(ps, r))
  {
    if ps != [] {
      NormedAt(ps[1..], r);
      assert NormedAll(ps)[1..] == NormedAll(ps[1..]);
    }
  }

  function NormedOption(p: Option<Posting>): Option<Posting> {
    if p.Some? then Some(Normed(p.value)) else None
  }

  lemma {:induction false} NormedRows(seg: Seg, key: bytes)
    ensures Rows(NormedTerms(seg), key) == NormedAll(Rows(seg, key))
  {
    if seg != [] {
      NormedRows(seg[1..], key);
      assert NormedTerms(seg)[1..] == NormedTerms(seg[1..]);
    }
  }

  lemma {:induction false} NormedLookup(seg: Seg, key: bytes, r: int)
    ensures Lookup(NormedTerms(seg), key, r) == NormedOption(Lookup(seg, key, r))
  {
    NormedRows(seg, key);
    NormedAt(Rows(seg, key), r);
  }

  /** As it is read from its pages. */
  predicate Plain(seg: Seg) {
    NormedTerms(seg) == seg
  }

  lemma {:induction false} NormedOrdered(seg: Seg)
    requires Ordered(seg) && forall i :: 0 <= i < |seg| ==> GoodRows(seg[i])
    ensures Ordered(NormedTerms(seg))
  {
    if seg != [] {
      assert NormedTerms(seg)[1..] == NormedTerms(seg[1..]);
      NormedOrdered(seg[1..]);
      var ps := seg[0].postings;
      forall i | 0 <= i < |ps|
        ensures PostingOk(NormedAll(ps)[i])
      {
        NormedModest(ps[i]);
        ModestOk(Normed(ps[i]));
      }
    }
  }

  lemma {:induction false} NormedGood(seg: Seg)
    requires GoodSeg(seg)
    ensures GoodSeg(NormedTerms(seg)) && Plain(NormedTerms(seg))
  {
    NormedOrdered(seg);
    var n := NormedTerms(seg);
    forall i | 0 <= i < |seg|
      ensures GoodRows(n[i]) && NormedTerms(n)[i] == n[i]
    {
      var ps := seg[i].postings;
      forall j | 0 <= j < |ps|
        ensures Good(n[i].key, n[i].postings[j]) && Normed(n[i].postings[j]) == n[i].postings[j]
      {
        assert Good(seg[i].key, ps[j]);
        NormedModest(ps[j]);
        NormedPositionless(ps[j]);
        NormedTwice(ps[j]);
      }
      assert NormedAll(n[i].postings) == n[i].postings;
    }
  }

  // ----- A merge

  lemma {:induction false} RowsAre(seg: Seg, i: nat)
    requires Ordered(seg) && i < |seg|
    ensures Rows(seg, seg[i].key) == seg[i].postings
  {
    if i > 0 {
      RowsAre(seg[1..], i - 1);
      LexEqual(seg[0].key, seg[i].key);
    }
  }

  lemma {:induction false} KeptSome(seg: Seg, oldest: bool, t: TermPostings)
    requires t in KeepTerms(seg, oldest)
    ensures t.postings != []
  {
    if t in KeepTerms(seg[1..], oldest) {
      KeptSome(seg[1..], oldest, t);
    }
  }

  ghost predicate HasPosting(segs: seq<Seg>, s: nat, ti: nat, key: bytes, p: Posting) {
    s < |segs| && ti < |segs[s]| && segs[s][ti].key == key && p in segs[s][ti].postings
  }

  /** Every posting of the merged segment was in one of the segments, for the same term. */
  lemma {:induction false} MergedFrom(segs: seq<Seg>, oldest: bool, i: nat, j: nat)
    requires AllOrdered(segs) && i < |Merged(segs, oldest)| && j < |Merged(segs, oldest)[i].postings|
    ensures var t := Merged(segs, oldest)[i];
            exists s: nat, ti: nat :: HasPosting(segs, s, ti, t.key, t.postings[j])
  {
    var m := Merged(segs, oldest);
    var t, p := m[i], m[i].postings[j];
    MergedOrdered(segs, oldest);
    RowsAre(m, i);
    RowsOk(m, t.key);
    AtIs(t.postings, j);
    MergedLookup(segs, oldest, t.key, p.rowid);
    NewestFrom(segs, t.key, p.rowid);
    var s :| 0 <= s < |segs| && Lookup(segs[s], t.key, p.rowid) == Some(p);
    RowsFrom(segs[s], t.key, p);
    var ti :| 0 <= ti < |segs[s]| && segs[s][ti].key == t.key && p in segs[s][ti].postings;
    assert HasPosting(segs, s, ti, t.key, p);
  }

  predicate AllGood(segs: seq<Seg>) {
    forall i :: 0 <= i < |segs| ==> GoodSeg(segs[i]) && Plain(segs[i])
  }

  lemma {:induction false} GoodTelling(seg: Seg)
    requires GoodSeg(seg)
    ensures Telling(seg)
  {
    forall i, j | 0 <= i < |seg| && 0 <= j < |seg[i].postings|
      ensures Positionless(seg[i].postings[j]) ==> seg[i].postings[j].del
    {
      assert Good(seg[i].key, seg[i].postings[j]);
    }
  }

  lemma {:induction false} PlainPosting(seg: Seg, i: nat, p: Posting)
    requires Plain(seg) && i < |seg| && p in seg[i].postings
    ensures Normed(p) == p
  {
    var j :| 0 <= j < |seg[i].postings| && seg[i].postings[j] == p;
    assert NormedTerms(seg)[i] == seg[i];
    assert NormedAll(seg[i].postings)[j] == Normed(p);
  }

  // A posting of one of the segments can be written as it is.
  lemma {:induction false} FoundGood(segs: seq<Seg>, key: bytes, p: Posting)
    requires AllGood(segs) && exists s: nat, ti: nat :: HasPosting(segs, s, ti, key, p)
    ensures Good(key, p) && Normed(p) == p
  {
    var s: nat, ti: nat :| HasPosting(segs, s, ti, key, p);
    assert GoodSeg(segs[s]) && Plain(segs[s]);
    assert GoodRows(segs[s][ti]);
    PlainPosting(segs[s], ti, p);
  }

  lemma {:induction false} MergedRow(segs: seq<Seg>, oldest: bool, i: nat)
    requires AllGood(segs) && AllOrdered(segs) && i < |Merged(segs, oldest)|
    ensures var t := Merged(segs, oldest)[i]; GoodRows(t) && NormedAll(t.postings) == t.postings
  {
    var t := Merged(segs, oldest)[i];
    KeptSome(OverlayAll([], segs), oldest, t);
    forall j | 0 <= j < |t.postings|
      ensures Good(t.key, t.postings[j]) && Normed(t.postings[j]) == t.postings[j]
    {
      MergedFrom(segs, oldest, i, j);
      FoundGood(segs, t.key, t.postings[j]);
    }
    assert NormedAll(t.postings) == t.postings;
  }

  lemma {:induction false} MergedGood(segs: seq<Seg>, oldest: bool)
    requires AllGood(segs)
    ensures AllOrdered(segs) && AllTelling(segs) && GoodSeg(Merged(segs, oldest)) && Plain(Merged(segs, oldest))
  {
    forall i | 0 <= i < |segs|
      ensures Telling(segs[i])
    {
      GoodTelling(segs[i]);
    }
    MergedOrdered(segs, oldest);
    var m := Merged(segs, oldest);
    forall i | 0 <= i < |m|
      ensures GoodRows(m[i]) && NormedTerms(m)[i] == m[i]
    {
      MergedRow(segs, oldest, i);
    }
  }

  // ----- Documents

  /** The columns of the posting that a document should have for a term. */
  function Indexed(docs: Documents, key: bytes, r: int): Option<seq<seq<nat>>> {
    if r in docs && Has(docs[r], key) then Some(Norm(Cols(docs[r], key), |docs[r]|)) else None
  }

  ghost predicate Reflects(segs: seq<Seg>, docs: Documents) {
    forall key, r :: Live(segs, key, r) == Indexed(docs, key, r)
  }

  lemma {:induction false} MergeReflects(before: seq<Seg>, run: seq<Seg>, after: seq<Seg>, oldest: bool,
                                         docs: Documents)
    requires Reflects(before + run + after, docs) && AllGood(run) && (oldest ==> before == [])
    ensures Reflects(before + [Merged(run, oldest)] + after, docs)
  {
    MergedGood(run, oldest);
    forall key, r
      ensures Live(before + [Merged(run, oldest)] + after, key, r) == Indexed(docs, key, r)
    {
      MergeKeepsLive(before, run, after, oldest, key, r);
    }
  }

  // A segment without terms says nothing.
  lemma {:induction false} EmptyReflects(before: seq<Seg>, after: seq<Seg>, docs: Documents)
    requires Reflects(before + [[]] + after, docs)
    ensures Reflects(before + after, docs)
  {
    forall key, r
      ensures Live(before + after, key, r) == Indexed(docs, key, r)
    {
      assert Live(before + [[]] + after, key, r) == Indexed(docs, key, r);
      NewestCat(before + [[]], after, key, r);
      NewestCat(before, [[]], key, r);
      NewestOne([], key, r);
      NewestCat(before, after, key, r);
    }
  }

  function DocOf(docs: Documents, r: int): Option<Document> {
    if r in docs then Some(docs[r]) else None
  }

  /** The documents after a batch. */
  function Apply(docs: Documents, changes: seq<Change>): Documents {
    if changes == [] then docs
    else
      var n := |changes| - 1;
      var before := Apply(docs, changes[..n]);
      match changes[n].now
      case Some(doc) => before[changes[n].rowid := doc]
      case None => before - {changes[n].rowid}
  }

  // The changes are changes of these documents.
  ghost predicate Fits(docs: Documents, changes: seq<Change>) {
    forall i :: 0 <= i < |changes| ==> changes[i].was == DocOf(docs, changes[i].rowid)
  }

  lemma {:induction false} AppliedDoc(docs: Documents, changes: seq<Change>, r: int)
    ensures DocOf(Apply(docs, changes), r)
         == (match ChangeOf(changes, r) case None => DocOf(docs, r) case Some(ch) => ch.now)
  {
    if changes != [] {
      AppliedDoc(docs, changes[..|changes| - 1], r);
    }
  }

  lemma {:induction false} ChangeIn(changes: seq<Change>, r: int)
    ensures ChangeOf(changes, r).Some? ==>
              ChangeOf(changes, r).value in changes && ChangeOf(changes, r).value.rowid == r
  {
    if changes != [] {
      ChangeIn(changes[..|changes| - 1], r);
    }
  }

  /** The segment of a batch, written after the others, makes them say what the documents now say. */
  lemma {:induction false} FlushReflects(segs: seq<Seg>, docs: Documents, changes: seq<Change>, terms: Seg)
    requires Reflects(segs, docs) && Fits(docs, changes) && Builds(terms, changes)
    ensures Reflects(segs + [NormedTerms(terms)], Apply(docs, changes))
  {
    var seg := NormedTerms(terms);
    forall key, r
      ensures Live(segs + [seg], key, r) == Indexed(Apply(docs, changes), key, r)
    {
      NewestCat(segs, [seg], key, r);
      NewestOne(seg, key, r);
      NormedLookup(terms, key, r);
      assert Lookup(terms, key, r) == FromChanges(changes, key, r);
      assert Live(segs, key, r) == Indexed(docs, key, r);
      AppliedDoc(docs, changes, r);
      ChangeIn(changes, r);
      if ChangeOf(changes, r).Some? {
        ChangeReflects(docs, ChangeOf(changes, r).value, key);
      }
    }
  }

  lemma {:induction false} ChangeReflects(docs: Documents, ch: Change, key: bytes)
    ensures match ChangePosting(ch, key)
            case None => !Contains(ch.was, key) && !Contains(ch.now, key)
            case Some(p) =>
              && (Positionless(Normed(p)) <==> !Contains(ch.now, key))
              && (Contains(ch.now, key) ==> Normed(p).cols == Norm(Cols(ch.now.value, key), |ch.now.value|))
  {
    var p := ChangePosting(ch, key);
    if p.Some? {
      NormedPositionless(p.value);
      if ch.now.Some? {
        AllColumns(ch.now.value, key);
      }
    }
  }
}
