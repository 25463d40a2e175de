/** Queries answered from the pages: whenever the index gives an answer, it is the rowids, ascending and
    without duplicates, of the documents that the scan accepts, whatever was flushed, merged, promoted or
    rebuilt before. */
module SegMatch {
  import opened Seqs
  import opened Bytes
  import opened Poslist
  import opened SegRead
  import opened SegWrite
  import opened Segment
  import opened Postings
  import opened SegMerge
  import opened SegDocs
  import opened SegLive
  import opened SegLevels
  import opened SegStore
  import opened SegScan
  import opened Sorting
  import opened SegQuery
  import opened Phrases
  import RowidSets

  // ----- The segments in the order of the structure record

  function Recorded(levels: seq<Level>): seq<StructSeg> {
    if levels == [] then [] else levels[0].segs + Recorded(levels[1..])
  }

  lemma {:induction false} RecordedSame(levels: seq<Level>, s: StructSeg)
    ensures s in Recorded(levels) <==> s in Ages(levels)
  {
    if levels != [] {
      RecordedSame(levels[1..], s);
    }
  }

  // These are the pages of the segments, in some order.
  ghost predicate Laid(segments: seq<seq<bytes>>, order: seq<StructSeg>, ages: seq<StructSeg>, data: Data) {
    && |segments| == |order| && (forall s :: s in order <==> s in ages)
    && forall i :: 0 <= i < |order| ==> order[i].segid in data && segments[i] == data[order[i].segid]
  }

  // The segment at a place in that order.
  lemma {:induction false} SegmentAt(segments: seq<seq<bytes>>, order: seq<StructSeg>, ages: seq<StructSeg>, data: Data,
                                     si: nat) returns (a: nat)
    requires Laid(segments, order, ages, data) && AllStored(ages, data) && si < |segments|
    ensures a < |ages| && ages[a] == order[si] && ReadSegment(segments[si]) == Ok(ReadAll(ages, data)[a])
    ensures GoodSeg(ReadAll(ages, data)[a])
  {
    assert order[si] in ages;
    a :| 0 <= a < |ages| && ages[a] == order[si];
    assert Stored(ages[a], data);
  }

  lemma {:induction false} PlaceOf(segments: seq<seq<bytes>>, order: seq<StructSeg>, ages: seq<StructSeg>, data: Data,
                                   a: nat) returns (si: nat)
    requires Laid(segments, order, ages, data) && AllStored(ages, data) && a < |ages|
    ensures si < |segments| && ages[a] == order[si] && ReadSegment(segments[si]) == Ok(ReadAll(ages, data)[a])
    ensures GoodSeg(ReadAll(ages, data)[a])
  {
    assert ages[a] in order;
    si :| 0 <= si < |order| && order[si] == ages[a];
    assert Stored(ages[a], data);
  }

  // Without a block, a segment serves the postings it holds.
  lemma {:induction false} ServedRows(segments: seq<seq<bytes>>, keys: seq<bytes>, si: nat, t: nat)
    requires !Blocked(segments, keys) && si < |segments| && t < |keys| && ReadSegment(segments[si]).Ok?
    ensures Served(segments[si], keys[t]) == Rows(ReadSegment(segments[si]).value, keys[t])
    ensures AllLive(Served(segments[si], keys[t]))
  {
    StrictReads(segments[si], keys[t]);
    assert !DecodeTermStrict(segments[si], keys[t]).Bail?;
  }

  // ----- The newest posting is the only one

  lemma {:induction false} NewestOnly(segs: seq<Seg>, key: bytes, r: int, a: nat, p: Posting)
    requires a < |segs| && Lookup(segs[a], key, r) == Some(p)
    requires forall b :: 0 <= b < |segs| && b != a ==> Lookup(segs[b], key, r) == None
    ensures Newest(segs, key, r) == Some(p)
  {
    var n := |segs| - 1;
    if a < n {
      assert forall b :: 0 <= b < n ==> segs[..n][b] == segs[b];
      NewestOnly(segs[..n], key, r, a, p);
    }
  }

  lemma {:induction false} GoodEntry(seg: Seg, key: bytes, p: Posting)
    requires GoodSeg(seg) && p in Rows(seg, key)
    ensures Good(key, p) && Lookup(seg, key, p.rowid) == Some(p)
  {
    RowsFrom(seg, key, p);
    var i :| 0 <= i < |seg| && seg[i].key == key && p in seg[i].postings;
    RowsOk(seg, key);
    var j :| 0 <= j < |Rows(seg, key)| && Rows(seg, key)[j] == p;
    AtIs(Rows(seg, key), j);
  }

  // A segment with a posting of the document is where the document is.
  lemma {:induction false} InPlace(segments: seq<seq<bytes>>, keys: seq<bytes>, si: nat, t: nat, r: int)
    requires !Blocked(segments, keys) && si < |segments| && t < |keys| && ReadSegment(segments[si]).Ok?
    requires Lookup(ReadSegment(segments[si]).value, keys[t], r).Some?
    ensures InSegment(segments, keys, si, r)
  {
    ServedRows(segments, keys, si, t);
    RowidIn(Served(segments[si], keys[t]), r);
  }

  ghost predicate Setting(segments: seq<seq<bytes>>, keys: seq<bytes>, order: seq<StructSeg>, ages: seq<StructSeg>,
                          data: Data, docs: Documents) {
    Laid(segments, order, ages, data) && Holds(ages, data, docs) && !Blocked(segments, keys)
  }

  /** A posting that is served is what its document should have. */
  lemma {:induction false} ServedIndexed(segments: seq<seq<bytes>>, keys: seq<bytes>, order: seq<StructSeg>,
                                         ages: seq<StructSeg>, data: Data, docs: Documents, si: nat, t: nat,
                                         p: Posting)
    requires Setting(segments, keys, order, ages, data, docs)
    requires si < |segments| && t < |keys| && p in Served(segments[si], keys[t])
    ensures Indexed(docs, keys[t], p.rowid) == Some(p.cols)
  {
    var a := SegmentAt(segments, order, ages, data, si);
    var segs, key := ReadAll(ages, data), keys[t];
    ServedRows(segments, keys, si, t);
    GoodEntry(segs[a], key, p);
    InPlace(segments, keys, si, t, p.rowid);
    forall b | 0 <= b < |segs| && b != a
      ensures Lookup(segs[b], key, p.rowid) == None
    {
      var sj := PlaceOf(segments, order, ages, data, b);
      assert ages[a].segid != ages[b].segid;
      if Lookup(segs[b], key, p.rowid).Some? {
        InPlace(segments, keys, sj, t, p.rowid);
      }
    }
    NewestOnly(segs, key, p.rowid, a, p);
    assert Live(segs, key, p.rowid) == Some(p.cols) by {
      var i :| 0 <= i < |Served(segments[si], key)| && Served(segments[si], key)[i] == p;
    }
  }

  /** A posting that a document should have is served. */
  lemma {:induction false} IndexedServed(segments: seq<seq<bytes>>, keys: seq<bytes>, order: seq<StructSeg>,
                                         ages: seq<StructSeg>, data: Data, docs: Documents, t: nat, r: int)
    returns (si: nat, p: Posting)
    requires Setting(segments, keys, order, ages, data, docs) && t < |keys| && Indexed(docs, keys[t], r).Some?
    ensures si < |segments| && p in Served(segments[si], keys[t]) && p.rowid == r
  {
    var segs := ReadAll(ages, data);
    assert Live(segs, keys[t], r).Some?;
    NewestFrom(segs, keys[t], r);
    var a :| 0 <= a < |segs| && Lookup(segs[a], keys[t], r) == Newest(segs, keys[t], r);
    p := Lookup(segs[a], keys[t], r).value;
    si := PlaceOf(segments, order, ages, data, a);
    ServedRows(segments, keys, si, t);
  }

  // ----- The list of a term

  /** The list has the postings that the documents should have, in rowid order. */
  ghost predicate Lists(ps: seq<Posting>, docs: Documents, key: bytes) {
    && Ascend(ps) && (forall p :: p in ps ==> Indexed(docs, key, p.rowid) == Some(p.cols))
    && forall r :: HasRowid(ps, r) <==> Indexed(docs, key, r).Some?
  }

  lemma {:induction false} ListOf(segments: seq<seq<bytes>>, keys: seq<bytes>, order: seq<StructSeg>,
                                  ages: seq<StructSeg>, data: Data, docs: Documents, t: nat)
    requires Setting(segments, keys, order, ages, data, docs) && t < |keys|
    ensures Lists(Sort(AllPostings(segments, keys[t]), RowidLe), docs, keys[t])
  {
    var all, lists := AllPostings(segments, keys[t]), ServedAll(segments, keys[t]);
    var ps := Sort(all, RowidLe);
    forall si | 0 <= si < |segments|
      ensures PostingsOk(lists[si])
    {
      var a := SegmentAt(segments, order, ages, data, si);
      ServedRows(segments, keys, si, t);
      RowsOk(ReadAll(ages, data)[a], keys[t]);
    }
    ListAscends(segments, keys, t);
    forall p | p in ps
      ensures Indexed(docs, keys[t], p.rowid) == Some(p.cols)
    {
      SortSame(all, RowidLe, p);
      JoinedIn(lists, |segments|, p);
      var si :| 0 <= si < |segments| && p in lists[si];
      ServedIndexed(segments, keys, order, ages, data, docs, si, t, p);
    }
    forall r
      ensures HasRowid(ps, r) <==> Indexed(docs, keys[t], r).Some?
    {
      RowidIn(ps, r);
      if Indexed(docs, keys[t], r).Some? {
        var si, p := IndexedServed(segments, keys, order, ages, data, docs, t, r);
        assert p in lists[si];
        JoinedIn(lists, |segments|, p);
        SortSame(all, RowidLe, p);
      }
    }
  }

  // ----- The answers

  predicate HasLeaves(data: Data) {
    exists id :: id in data && data[id] != []
  }

  ghost function PagesIn(order: seq<StructSeg>, data: Data): (r: seq<seq<bytes>>)
    ensures |r| == |order|
  {
    seq(|order|, i requires 0 <= i < |order| => if order[i].segid in data then data[order[i].segid] else [])
  }

  /** The index cannot tell about these terms: it has no segment, a delete marker for one of them, or one of
      their documents in two segments. */
  ghost predicate Silent(ix: Index, keys: seq<bytes>)
    reads ix, ix.structure
  {
    var order := Recorded(ix.structure.levels);
    order == [] || Blocked(PagesIn(order, ix.data), keys)
  }

  // The pages of every segment, in the order of the structure record; none if there is no segment.
  method SegmentsLeaves(ix: Index) returns (segments: Option<seq<seq<bytes>>>)
    requires ix.Valid()
    ensures segments.None? <==> Recorded(ix.structure.levels) == []
    ensures segments.Some? ==> Laid(segments.value, Recorded(ix.structure.levels), Ages(ix.structure.levels), ix.data)
    ensures segments.Some? ==> segments.value == PagesIn(Recorded(ix.structure.levels), ix.data)
  {
    var order := Recorded(ix.structure.levels);
    forall s
      ensures s in order <==> s in Ages(ix.structure.levels)
    {
      RecordedSame(ix.structure.levels, s);
    }
    if order == [] {
      return None;
    }
    var pages := [];
    for i := 0 to |order|
      invariant |pages| == i
      invariant forall k :: 0 <= k < i ==> order[k].segid in ix.data && pages[k] == ix.data[order[k].segid]
    {
      assert order[i] in order;
      assert Stored(order[i], ix.data);
      var leaves := ix.data[order[i].segid][order[i].pgnoFirst - 1..order[i].pgnoLast];
      assert leaves == ix.data[order[i].segid];
      pages := pages + [leaves];
    }
    segments := Some(pages);
  }

  ghost predicate AllLists(lists: seq<seq<Posting>>, docs: Documents, keys: seq<bytes>) {
    |lists| == |keys| && forall t :: 0 <= t < |keys| ==> Lists(lists[t], docs, keys[t])
  }

  /** The postings of several terms, if the index can tell. */
  method TermLists(ix: Index, keys: seq<bytes>) returns (r: Option<seq<seq<Posting>>>)
    requires ix.Valid()
    ensures r.None? <==> Silent(ix, keys)
    ensures r.Some? ==> AllLists(r.value, ix.docs, keys)
  {
    var segments := SegmentsLeaves(ix);
    if segments.None? {
      return None;
    }
    r := DecodeTerms(segments.value, keys);
    if r.Some? {
      forall t | 0 <= t < |keys|
        ensures Lists(r.value[t], ix.docs, keys[t])
      {
        ListOf(segments.value, keys, Recorded(ix.structure.levels), Ages(ix.structure.levels), ix.data, ix.docs, t);
      }
    }
  }

  function Dedup(ps: seq<Posting>): seq<Posting>
    decreases |ps|
  {
    if |ps| < 2 then ps
    else if ps[0].rowid == ps[1].rowid then Dedup([ps[0]] + ps[2..])
    else [ps[0]] + Dedup(ps[1..])
  }

  lemma {:induction false} DedupNothing(ps: seq<Posting>)
    requires Ascend(ps)
    ensures Dedup(ps) == ps
  {
    if |ps| >= 2 {
      assert forall i :: 0 <= i < |ps| - 1 ==> ps[1..][i] == ps[i + 1];
      DedupNothing(ps[1..]);
      assert ps[0].rowid < ps[1].rowid;
    }
  }

  function Rowids(ps: seq<Posting>): (r: seq<int>)
    ensures |r| == |ps| && forall i :: 0 <= i < |ps| ==> r[i] == ps[i].rowid
  {
    seq(|ps|, i requires 0 <= i < |ps| => ps[i].rowid)
  }

  /** The rowids of a term, if the index can tell: those of the documents that have it. */
  method TermRowids(ix: Index, token: bytes) returns (r: Option<seq<int>>)
    requires ix.Valid()
    ensures r.None? <==> Silent(ix, [Key(token)])
    ensures r.Some? ==> Ascending(r.value)
    ensures r.Some? ==> forall id :: id in r.value <==> id in ix.docs && Has(ix.docs[id], Key(token))
  {
    var lists := TermLists(ix, [Key(token)]);
    if lists.None? {
      return None;
    }
    var ps := lists.value[0];
    assert Lists(ps, ix.docs, [Key(token)][0]);
    DedupNothing(ps);
    r := Some(Rowids(Dedup(ps)));
    forall id
      ensures id in r.value <==> HasRowid(ps, id)
    {
      if HasRowid(ps, id) {
        var i :| 0 <= i < |ps| && ps[i].rowid == id;
        assert r.value[i] == id;
      }
    }
  }

  ghost predicate SilentTree(ix: Index, tree: Tree)
    reads ix, ix.structure
  {
    match tree
    case Leaf(token) => Silent(ix, [Key(token)])
    case Op(_, a, b) => SilentTree(ix, a) || SilentTree(ix, b)
  }

  /** A tree of bare terms: the rowids of the documents of which it holds, unless the index cannot tell about
      one of the terms. */
  method EvalTree(ix: Index, tree: Tree) returns (r: Option<seq<int>>)
    requires ix.Valid()
    ensures r.None? <==> SilentTree(ix, tree)
    ensures r.Some? ==> Ascending(r.value)
    ensures r.Some? ==> forall id :: id in r.value <==> id in ix.docs && TreeHolds(tree, ix.docs[id])
    decreases tree
  {
    match tree
    case Leaf(token) =>
      r := TermRowids(ix, token);
    case Op(op, a, b) =>
      var ra := EvalTree(ix, a);
      if ra.None? {
        return None;
      }
      var rb := EvalTree(ix, b);
      if rb.None? {
        return None;
      }
      var out;
      match op {
        case AndOp => out := RowidSets.Intersect(ra.value, rb.value);
        case OrOp => out := RowidSets.Union(ra.value, rb.value);
        case NotOp => out := RowidSets.Difference(ra.value, rb.value);
      }
      r := Some(out);
  }

  // ----- Phrases

  function Keys(tokens: seq<bytes>): (r: seq<bytes>)
    ensures |r| == |tokens| && forall t :: 0 <= t < |tokens| ==> r[t] == Key(tokens[t])
  {
    seq(|tokens|, t requires 0 <= t < |tokens| => Key(tokens[t]))
  }

  /** The tokens follow one another in this column. */
  ghost predicate RunIn(tokens: seq<bytes>, doc: Document, c: nat) {
    c < |doc| && exists s: nat :: PhraseAt(tokens, false, doc[c], s)
  }

  ghost predicate RunSomewhere(tokens: seq<bytes>, doc: Document, column: Option<nat>) {
    match column
    case Some(c) => RunIn(tokens, doc, c)
    case None => exists c :: 0 <= c < |doc| && RunIn(tokens, doc, c)
  }

  // The columns of a term in the list are its positions in the document.
  lemma {:induction false} ColumnIs(ps: seq<Posting>, docs: Documents, token: bytes, r: int, c: nat)
    requires Lists(ps, docs, Key(token)) && HasRowid(ps, r)
    ensures r in docs && Has(docs[r], Key(token))
    ensures ColumnOf(ColsIn(ps, r), c) == if c < |docs[r]| then Positions(docs[r][c], Key(token), |docs[r][c]|) else []
  {
    var i :| 0 <= i < |ps| && ps[i].rowid == r;
    AtAscend(ps, i);
    assert Indexed(docs, Key(token), r) == Some(ps[i].cols);
    var cols := Cols(docs[r], Key(token));
    NormedSame(Posting(r, cols, false));
    assert ColumnOf(Norm(cols, |cols|), c) == ColumnOf(cols, c);
  }

  lemma {:induction false} MaxAtLeast(cols: seq<Columns>, i: nat)
    requires i < |cols|
    ensures |cols[i]| <= MaxColumns(cols)
  {
    if i > 0 {
      MaxAtLeast(cols[1..], i - 1);
    }
  }

  // Term `i` is at a position of the column exactly if the token is there.
  lemma {:induction false} TokenHere(lists: seq<seq<Posting>>, docs: Documents, tokens: seq<bytes>, r: int, c: nat,
                                     i: nat, q: nat)
    requires i < |tokens| && AllLists(lists, docs, Keys(tokens)) && InAll(lists, r) && r in docs && c < |docs[r]|
    ensures q in ColumnOf(ColsAt(lists, r)[i], c) <==> q < |docs[r][c]| && docs[r][c][q] == tokens[i]
  {
    assert Lists(lists[i], docs, Keys(tokens)[i]);
    ColumnIs(lists[i], docs, tokens[i], r, c);
    TokenPosition(docs[r][c], tokens[i], q);
  }

  // The terms are one after the other from `p` on.
  ghost predicate InARow(cols: seq<Columns>, c: nat, p: nat) {
    forall i :: 0 <= i < |cols| ==> p + i in ColumnOf(cols[i], c)
  }

  // The columns tell where the tokens are in this one.
  ghost predicate Tells(cols: seq<Columns>, c: nat, col: seq<bytes>, tokens: seq<bytes>) {
    |cols| == |tokens| && forall i :: 0 <= i < |tokens| ==> TellsToken(ColumnOf(cols[i], c), col, tokens[i])
  }

  ghost predicate TellsToken(ps: seq<nat>, col: seq<bytes>, token: bytes) {
    forall q: nat :: q in ps <==> q < |col| && col[q] == token
  }

  lemma {:induction false} RowIsPhrase(cols: seq<Columns>, c: nat, col: seq<bytes>, tokens: seq<bytes>, p: nat)
    requires tokens != [] && Tells(cols, c, col, tokens)
    ensures InARow(cols, c, p) <==> PhraseAt(tokens, false, col, p)
  {
    if InARow(cols, c, p) {
      forall i | 0 <= i < |tokens|
        ensures p + i < |col| && TokenMatches(tokens[i], col[p + i], false)
      {
        assert TellsToken(ColumnOf(cols[i], c), col, tokens[i]);
        assert p + i in ColumnOf(cols[i], c);
      }
      var last := |tokens| - 1;
      assert TellsToken(ColumnOf(cols[last], c), col, tokens[last]);
      assert p + last in ColumnOf(cols[last], c);
    }
    if PhraseAt(tokens, false, col, p) {
      forall i | 0 <= i < |cols|
        ensures p + i in ColumnOf(cols[i], c)
      {
        assert TellsToken(ColumnOf(cols[i], c), col, tokens[i]);
        assert TokenMatches(tokens[i], col[p + i], false);
      }
    }
  }

  lemma {:induction false} ListsTell(lists: seq<seq<Posting>>, docs: Documents, tokens: seq<bytes>, r: int, c: nat)
    requires AllLists(lists, docs, Keys(tokens)) && InAll(lists, r) && r in docs && c < |docs[r]|
    ensures Tells(ColsAt(lists, r), c, docs[r][c], tokens)
  {
    forall i | 0 <= i < |tokens|
      ensures TellsToken(ColumnOf(ColsAt(lists, r)[i], c), docs[r][c], tokens[i])
    {
      forall q: nat
        ensures q in ColumnOf(ColsAt(lists, r)[i], c) <==> q < |docs[r][c]| && docs[r][c][q] == tokens[i]
      {
        TokenHere(lists, docs, tokens, r, c, i, q);
      }
    }
  }

  lemma {:induction false} RunIsRow(cols: seq<Columns>, c: nat, p: nat)
    requires cols != []
    ensures p in ColumnOf(cols[0], c) && RunAt(cols, c, p) ==> InARow(cols, c, p)
    ensures p + |cols| <= TWO_32 && InARow(cols, c, p) ==> p in ColumnOf(cols[0], c) && RunAt(cols, c, p)
  {
    if p in ColumnOf(cols[0], c) && RunAt(cols, c, p) {
      forall i | 0 <= i < |cols|
        ensures p + i in ColumnOf(cols[i], c)
      {
        if i == 0 {
          assert p + i == p;
        }
      }
    }
    if InARow(cols, c, p) {
      assert p + 0 in ColumnOf(cols[0], c) && p + 0 == p;
    }
  }

  // A run of positions is a run of tokens; positions of a document are within 32 bits.
  lemma {:induction false} RunIsPhrase(lists: seq<seq<Posting>>, docs: Documents, tokens: seq<bytes>, r: int, c: nat,
                                       p: nat)
    requires tokens != [] && AllLists(lists, docs, Keys(tokens)) && InAll(lists, r)
    requires r in docs && c < |docs[r]| && ColumnOk(docs[r][c])
    ensures (p in ColumnOf(ColsAt(lists, r)[0], c) && RunAt(ColsAt(lists, r), c, p))
       <==> PhraseAt(tokens, false, docs[r][c], p)
  {
    RunIsRow(ColsAt(lists, r), c, p);
    ListsTell(lists, docs, tokens, r, c);
    RowIsPhrase(ColsAt(lists, r), c, docs[r][c], tokens, p);
  }

  // A phrase in a document puts the document in every list.
  lemma {:induction false} PhraseInAll(lists: seq<seq<Posting>>, docs: Documents, tokens: seq<bytes>, r: int, c: nat,
                                       s: nat)
    requires AllLists(lists, docs, Keys(tokens)) && r in docs && c < |docs[r]| && PhraseAt(tokens, false, docs[r][c], s)
    ensures InAll(lists, r)
  {
    forall i | 0 <= i < |lists|
      ensures HasRowid(lists[i], r)
    {
      assert Lists(lists[i], docs, Keys(tokens)[i]);
      assert TokenMatches(tokens[i], docs[r][c][s + i], false);
      TokenPosition(docs[r][c], tokens[i], s + i);
      assert Has(docs[r], Key(tokens[i]));
    }
  }

  lemma {:induction false} RunInIs(lists: seq<seq<Posting>>, docs: Documents, tokens: seq<bytes>, r: int, c: nat)
    requires tokens != [] && AllLists(lists, docs, Keys(tokens)) && InAll(lists, r) && r in docs && DocOk(docs[r])
    ensures RunInColumn(ColsAt(lists, r), c) <==> RunIn(tokens, docs[r], c)
    ensures RunInColumn(ColsAt(lists, r), c) ==> c < MaxColumns(ColsAt(lists, r))
  {
    var cols := ColsAt(lists, r);
    var first := ColumnOf(cols[0], c);
    assert Lists(lists[0], docs, Keys(tokens)[0]);
    ColumnIs(lists[0], docs, tokens[0], r, c);
    MaxAtLeast(cols, 0);
    if RunInColumn(cols, c) {
      var k :| 0 <= k < |first| && RunAt(cols, c, first[k]);
      RunIsPhrase(lists, docs, tokens, r, c, first[k]);
    }
    if RunIn(tokens, docs[r], c) {
      var s: nat :| PhraseAt(tokens, false, docs[r][c], s);
      RunIsPhrase(lists, docs, tokens, r, c, s);
      var k :| 0 <= k < |first| && first[k] == s;
    }
  }

  lemma {:induction false} WantedIs(lists: seq<seq<Posting>>, docs: Documents, tokens: seq<bytes>, column: Option<nat>,
                                    r: int)
    requires tokens != [] && AllLists(lists, docs, Keys(tokens)) && DocumentsOk(docs)
    ensures Wanted(lists, column, r) <==> r in docs && RunSomewhere(tokens, docs[r], column)
  {
    if InAll(lists, r) {
      assert Lists(lists[0], docs, Keys(tokens)[0]) && HasRowid(lists[0], r);
      forall c: nat
        ensures RunInColumn(ColsAt(lists, r), c) <==> RunIn(tokens, docs[r], c)
        ensures RunInColumn(ColsAt(lists, r), c) ==> c < MaxColumns(ColsAt(lists, r))
      {
        RunInIs(lists, docs, tokens, r, c);
      }
    } else if r in docs && RunSomewhere(tokens, docs[r], column) {
      var c := if column.Some? then column.value else var c :| 0 <= c < |docs[r]| && RunIn(tokens, docs[r], c); c;
      var s: nat :| PhraseAt(tokens, false, docs[r][c], s);
      PhraseInAll(lists, docs, tokens, r, c, s);
    }
  }

  /** A phrase: the rowids of the documents in which its tokens follow one another. */
  method PhraseRowids(ix: Index, tokens: seq<bytes>, column: Option<nat>) returns (r: Option<seq<int>>)
    requires ix.Valid()
    ensures r.None? <==> |tokens| < 2 || Silent(ix, Keys(tokens))
    ensures r.Some? ==> Ascending(r.value)
    ensures r.Some? ==> forall id :: id in r.value <==> id in ix.docs && RunSomewhere(tokens, ix.docs[id], column)
  {
    if |tokens| < 2 {
      return None;
    }
    var lists := TermLists(ix, Keys(tokens));
    if lists.None? {
      return None;
    }
    forall t | 0 <= t < |tokens|
      ensures Ascend(lists.value[t])
    {
      assert Lists(lists.value[t], ix.docs, Keys(tokens)[t]);
    }
    var out := PhraseIntersect(lists.value, column);
    forall id
      ensures id in out <==> id in ix.docs && RunSomewhere(tokens, ix.docs[id], column)
    {
      WantedIs(lists.value, ix.docs, tokens, column, id);
    }
    r := Some(out);
  }
}
