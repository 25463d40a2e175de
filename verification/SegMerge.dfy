/** Merging segments, and what a list of segments says about documents. The newest posting of a document
    for a term decides; one without positions says that the term is gone. */
module SegMerge {
  import opened Seqs
  import opened Bytes
  import opened Poslist
  import opened SegRead
  import opened SegWrite
  import opened Postings

  type Seg = seq<TermPostings>

  predicate Positionless(p: Posting) {
    forall c :: 0 <= c < |p.cols| ==> p.cols[c] == []
  }

  /** Only a delete marker comes without positions. */
  predicate Telling(seg: Seg) {
    forall i, j :: 0 <= i < |seg| && 0 <= j < |seg[i].postings| ==>
      Positionless(seg[i].postings[j]) ==> seg[i].postings[j].del
  }

  // ----- The live view

  /** The posting in the newest segment that has one; the oldest segment comes first. */
  function Newest(segs: seq<Seg>, key: bytes, r: int): Option<Posting> {
    if segs == [] then None
    else
      var n := |segs| - 1;
      var p := Lookup(segs[n], key, r);
      if p.Some? then p else Newest(segs[..n], key, r)
  }

  /** The columns of the live posting. */
  function Live(segs: seq<Seg>, key: bytes, r: int): Option<seq<seq<nat>>> {
    match Newest(segs, key, r)
    case None => None
    case Some(p) => if Positionless(p) then None else Some(p.cols)
  }

  lemma {:induction false} NewestCat(a: seq<Seg>, b: seq<Seg>, key: bytes, r: int)
    ensures Newest(a + b, key, r) == if Newest(b, key, r).Some? then Newest(b, key, r) else Newest(a, key, r)
    decreases b
  {
    if b == [] {
      assert a + b == a;
    } else {
      var n := |b| - 1;
      assert (a + b)[..|a + b| - 1] == a + b[..n];
      NewestCat(a, b[..n], key, r);
    }
  }

  lemma {:induction false} NewestOne(seg: Seg, key: bytes, r: int)
    ensures Newest([seg], key, r) == Lookup(seg, key, r)
  {
  }

  // ----- Merging

  function PutRows(rows: seq<Posting>, ps: seq<Posting>): seq<Posting>
    decreases ps
  {
    if ps == [] then rows else PutRows(PutRow(rows, ps[0]), ps[1..])
  }

  lemma {:induction false} PutRowsAt(rows: seq<Posting>, ps: seq<Posting>, r: int)
    requires PostingsOk(ps)
    ensures At(PutRows(rows, ps), r) == if At(ps, r).Some? then At(ps, r) else At(rows, r)
    decreases ps
  {
    if ps != [] {
      PostingsTail(ps);
      PutRowsAt(PutRow(rows, ps[0]), ps[1..], r);
      PutRowAt(rows, ps[0], r);
      AtBelow(ps[1..], ps[0].rowid);
    }
  }

  lemma {:induction false} PutRowsOk(rows: seq<Posting>, ps: seq<Posting>)
    requires PostingsOk(rows) && PostingsOk(ps)
    ensures PostingsOk(PutRows(rows, ps))
    decreases ps
  {
    if ps != [] {
      PostingsTail(ps);
      PutRowOk(rows, ps[0]);
      PutRowsOk(PutRow(rows, ps[0]), ps[1..]);
    }
  }

  function OverlayTerm(m: Seg, t: TermPostings): Seg {
    SetRows(m, t.key, PutRows(Rows(m, t.key), t.postings))
  }

  // The map after the postings of a newer segment.
  function Overlay(m: Seg, seg: Seg): Seg
    decreases seg
  {
    if seg == [] then m else Overlay(OverlayTerm(m, seg[0]), seg[1..])
  }

  function OverlayAll(m: Seg, segs: seq<Seg>): Seg
    decreases segs
  {
    if segs == [] then m else OverlayAll(Overlay(m, segs[0]), segs[1..])
  }

  lemma {:induction false} OverlayTermLookup(m: Seg, t: TermPostings, key: bytes, r: int)
    requires PostingsOk(t.postings)
    ensures Lookup(OverlayTerm(m, t), key, r)
         == if key == t.key && At(t.postings, r).Some? then At(t.postings, r) else Lookup(m, key, r)
  {
    SetRowsRows(m, t.key, PutRows(Rows(m, t.key), t.postings), key);
    PutRowsAt(Rows(m, t.key), t.postings, r);
  }

  lemma {:induction false} OverlayLookup(m: Seg, seg: Seg, key: bytes, r: int)
    requires Ordered(seg)
    ensures Lookup(Overlay(m, seg), key, r)
         == if Lookup(seg, key, r).Some? then Lookup(seg, key, r) else Lookup(m, key, r)
    decreases seg
  {
    if seg != [] {
      OverlayTermLookup(m, seg[0], key, r);
      OverlayLookup(OverlayTerm(m, seg[0]), seg[1..], key, r);
      if key == seg[0].key {
        RowsBelow(seg[1..], key);
      }
    }
  }

  lemma {:induction false} OverlayOrdered(m: Seg, seg: Seg)
    requires Ordered(m) && Ordered(seg)
    ensures Ordered(Overlay(m, seg))
    decreases seg
  {
    if seg != [] {
      RowsOk(m, seg[0].key);
      PutRowsOk(Rows(m, seg[0].key), seg[0].postings);
      SetRowsOrdered(m, seg[0].key, PutRows(Rows(m, seg[0].key), seg[0].postings));
      OverlayOrdered(OverlayTerm(m, seg[0]), seg[1..]);
    }
  }

  predicate AllOrdered(segs: seq<Seg>) {
    forall i :: 0 <= i < |segs| ==> Ordered(segs[i])
  }

  lemma {:induction false} OverlayAllOrdered(m: Seg, segs: seq<Seg>)
    requires Ordered(m) && AllOrdered(segs)
    ensures Ordered(OverlayAll(m, segs))
    decreases segs
  {
    if segs != [] {
      OverlayOrdered(m, segs[0]);
      OverlayAllOrdered(Overlay(m, segs[0]), segs[1..]);
    }
  }

  /** Inserting from the oldest segment to the newest leaves the newest posting. */
  lemma {:induction false} OverlayAllLookup(m: Seg, segs: seq<Seg>, key: bytes, r: int)
    requires AllOrdered(segs)
    ensures Lookup(OverlayAll(m, segs), key, r)
         == if Newest(segs, key, r).Some? then Newest(segs, key, r) else Lookup(m, key, r)
    decreases segs
  {
    if segs != [] {
      OverlayLookup(m, segs[0], key, r);
      OverlayAllLookup(Overlay(m, segs[0]), segs[1..], key, r);
      assert segs == [segs[0]] + segs[1..];
      NewestCat([segs[0]], segs[1..], key, r);
      NewestOne(segs[0], key, r);
    }
  }

  // ----- Annihilation

  /** A posting without positions is dropped from the oldest segment, and anywhere if it deletes nothing. */
  predicate Dropped(p: Posting, oldest: bool) {
    Positionless(p) && (oldest || !p.del)
  }

  function KeepRows(ps: seq<Posting>, oldest: bool): seq<Posting> {
    if ps == [] then []
    else if Dropped(ps[0], oldest) then KeepRows(ps[1..], oldest)
    else [ps[0]] + KeepRows(ps[1..], oldest)
  }

  function KeepTerms(seg: Seg, oldest: bool): Seg {
    if seg == [] then []
    else
      var ps := KeepRows(seg[0].postings, oldest);
      if ps == [] then KeepTerms(seg[1..], oldest) else [TermPostings(seg[0].key, ps)] + KeepTerms(seg[1..], oldest)
  }

  function Kept(p: Option<Posting>, oldest: bool): Option<Posting> {
    if p.Some? && Dropped(p.value, oldest) then None else p
  }

  lemma {:induction false} KeepRowsAt(ps: seq<Posting>, oldest: bool, r: int)
    requires PostingsOk(ps)
    ensures At(KeepRows(ps, oldest), r) == Kept(At(ps, r), oldest)
  {
    if ps != [] {
      PostingsTail(ps);
      KeepRowsAt(ps[1..], oldest, r);
      if Dropped(ps[0], oldest) {
        AtBelow(ps[1..], ps[0].rowid);
      } else {
        assert ([ps[0]] + KeepRows(ps[1..], oldest))[1..] == KeepRows(ps[1..], oldest);
      }
    }
  }

  lemma {:induction false} KeepRowsOk(ps: seq<Posting>, oldest: bool)
    requires PostingsOk(ps)
    ensures PostingsOk(KeepRows(ps, oldest))
    ensures KeepRows(ps, oldest) != [] ==> ps != [] && ps[0].rowid <= KeepRows(ps, oldest)[0].rowid
  {
    if ps != [] {
      PostingsTail(ps);
      KeepRowsOk(ps[1..], oldest);
      if !Dropped(ps[0], oldest) {
        PostingsCons(ps[0], KeepRows(ps[1..], oldest));
      }
    }
  }

  lemma {:induction false} KeepTermsRows(seg: Seg, oldest: bool, key: bytes)
    requires Ordered(seg)
    ensures Rows(KeepTerms(seg, oldest), key) == KeepRows(Rows(seg, key), oldest)
  {
    if seg != [] {
      KeepTermsRows(seg[1..], oldest, key);
      var ps := KeepRows(seg[0].postings, oldest);
      if key == seg[0].key {
        RowsBelow(seg[1..], key);
      }
      if ps != [] {
        var t := TermPostings(seg[0].key, ps);
        assert ([t] + KeepTerms(seg[1..], oldest))[1..] == KeepTerms(seg[1..], oldest);
      }
    }
  }

  lemma {:induction false} KeepTermsOrdered(seg: Seg, oldest: bool, k: bytes)
    requires Ordered(seg)
    ensures Ordered(KeepTerms(seg, oldest)) && (Above(k, seg) ==> Above(k, KeepTerms(seg, oldest)))
  {
    if seg != [] {
      var t, ps := seg[1..], KeepRows(seg[0].postings, oldest);
      KeepTermsOrdered(t, oldest, k);
      KeepTermsOrdered(t, oldest, seg[0].key);
      KeepRowsOk(seg[0].postings, oldest);
      if ps != [] {
        OrderedCons(TermPostings(seg[0].key, ps), KeepTerms(t, oldest));
      }
    }
  }

  /** The segment that a run of segments is merged into. */
  function Merged(segs: seq<Seg>, oldest: bool): Seg {
    KeepTerms(OverlayAll([], segs), oldest)
  }

  lemma {:induction false} MergedLookup(segs: seq<Seg>, oldest: bool, key: bytes, r: int)
    requires AllOrdered(segs)
    ensures Lookup(Merged(segs, oldest), key, r) == Kept(Newest(segs, key, r), oldest)
  {
    var all := OverlayAll([], segs);
    OverlayAllOrdered([], segs);
    OverlayAllLookup([], segs, key, r);
    KeepTermsRows(all, oldest, key);
    RowsOk(all, key);
    KeepRowsAt(Rows(all, key), oldest, r);
  }

  lemma {:induction false} MergedOrdered(segs: seq<Seg>, oldest: bool)
    requires AllOrdered(segs)
    ensures Ordered(Merged(segs, oldest))
  {
    OverlayAllOrdered([], segs);
    KeepTermsOrdered(OverlayAll([], segs), oldest, []);
  }

  // A newest posting comes from one of the segments.
  lemma {:induction false} NewestFrom(segs: seq<Seg>, key: bytes, r: int)
    requires Newest(segs, key, r).Some?
    ensures exists i :: 0 <= i < |segs| && Lookup(segs[i], key, r) == Newest(segs, key, r)
  {
    var n := |segs| - 1;
    if Lookup(segs[n], key, r).None? {
      NewestFrom(segs[..n], key, r);
      var i :| 0 <= i < n && Lookup(segs[..n][i], key, r) == Newest(segs[..n], key, r);
      assert segs[..n][i] == segs[i];
    }
  }

  lemma {:induction false} LookupTelling(seg: Seg, key: bytes, r: int)
    requires Telling(seg) && Lookup(seg, key, r).Some?
    ensures Positionless(Lookup(seg, key, r).value) ==> Lookup(seg, key, r).value.del
  {
    if seg[0].key != key {
      assert forall i :: 0 <= i < |seg| - 1 ==> seg[1..][i] == seg[i + 1];
      LookupTelling(seg[1..], key, r);
    }
  }

  predicate AllTelling(segs: seq<Seg>) {
    forall i :: 0 <= i < |segs| ==> Telling(segs[i])
  }

  /** Replacing a run of segments by the one they are merged into changes nothing that is live: delete
      markers go only when no older segment is left, and nothing else without positions is there. */
  lemma {:induction false} MergeKeepsLive(before: seq<Seg>, run: seq<Seg>, after: seq<Seg>, oldest: bool, key: bytes,
                                          r: int)
    requires AllOrdered(run) && AllTelling(run) && (oldest ==> before == [])
    ensures Live(before + [Merged(run, oldest)] + after, key, r) == Live(before + run + after, key, r)
  {
    var m := Merged(run, oldest);
    MergedLookup(run, oldest, key, r);
    NewestOne(m, key, r);
    NewestCat(before + [m], after, key, r);
    NewestCat(before + run, after, key, r);
    NewestCat(before, [m], key, r);
    NewestCat(before, run, key, r);
    if Newest(run, key, r).Some? {
      NewestFrom(run, key, r);
      var i :| 0 <= i < |run| && Lookup(run[i], key, r) == Newest(run, key, r);
      LookupTelling(run[i], key, r);
    }
  }

  // ----- The merge as it is carried out

  method InsertPostings(m: Seg, seg: Seg) returns (out: Seg)
    ensures out == Overlay(m, seg)
  {
    out := m;
    var terms := seg;
    while terms != []
      invariant Overlay(out, terms) == Overlay(m, seg)
      decreases terms
    {
      var rows, ps := Rows(out, terms[0].key), terms[0].postings;
      while ps != []
        invariant PutRows(rows, ps) == PutRows(Rows(out, terms[0].key), terms[0].postings)
        decreases ps
      {
        rows, ps := PutRow(rows, ps[0]), ps[1..];
      }
      out, terms := SetRows(out, terms[0].key, rows), terms[1..];
    }
  }

  method KeepPostings(rows: seq<Posting>, oldest: bool) returns (kept: seq<Posting>)
    ensures kept == KeepRows(rows, oldest)
  {
    kept := [];
    var ps := rows;
    while ps != []
      invariant kept + KeepRows(ps, oldest) == KeepRows(rows, oldest)
      decreases ps
    {
      if !Dropped(ps[0], oldest) {
        Assoc(kept, [ps[0]], KeepRows(ps[1..], oldest));
        kept := kept + [ps[0]];
      }
      ps := ps[1..];
    }
    assert kept + [] == kept;
  }

  // What is left of a term.
  function KeepTerm(t: TermPostings, oldest: bool): Seg {
    var ps := KeepRows(t.postings, oldest);
    if ps == [] then [] else [TermPostings(t.key, ps)]
  }

  lemma {:induction false} KeepFirst(seg: Seg, oldest: bool)
    requires seg != []
    ensures KeepTerms(seg, oldest) == KeepTerm(seg[0], oldest) + KeepTerms(seg[1..], oldest)
  {
  }

  method Annihilate(seg: Seg, oldest: bool) returns (out: Seg)
    ensures out == KeepTerms(seg, oldest)
  {
    out := [];
    var terms := seg;
    while terms != []
      invariant out + KeepTerms(terms, oldest) == KeepTerms(seg, oldest)
      decreases terms
    {
      var kept := KeepPostings(terms[0].postings, oldest);
      KeepFirst(terms, oldest);
      Assoc(out, KeepTerm(terms[0], oldest), KeepTerms(terms[1..], oldest));
      out := out + if kept == [] then [] else [TermPostings(terms[0].key, kept)];
      terms := terms[1..];
    }
    assert out + [] == out;
  }

  /** Merge the segments of a level, oldest first: for every term and document the newest posting is left,
      unless it is dropped. */
  method MergeLevelPostings(segs: seq<Seg>, oldest: bool) returns (out: Seg)
    requires AllOrdered(segs)
    ensures out == Merged(segs, oldest) && Ordered(out)
    ensures forall key, r :: Lookup(out, key, r) == Kept(Newest(segs, key, r), oldest)
  {
    var m, rest := [], segs;
    while rest != []
      invariant OverlayAll(m, rest) == OverlayAll([], segs)
      decreases rest
    {
      m := InsertPostings(m, rest[0]);
      rest := rest[1..];
    }
    out := Annihilate(m, oldest);
    MergedOrdered(segs, oldest);
    forall key, r
      ensures Lookup(out, key, r) == Kept(Newest(segs, key, r), oldest)
    {
      MergedLookup(segs, oldest, key, r);
    }
  }
}
