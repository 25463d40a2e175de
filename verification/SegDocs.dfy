/** From documents to the terms of a segment. A batch of changes becomes the postings of the documents it
    leaves and delete markers for the terms it takes away. */
module SegDocs {
  import opened Seqs
  import opened Bytes
  import opened Poslist
  import opened SegRead
  import opened Postings
  import opened SegMerge
  import Varint

  /** The tokens of a document, column by column. */
  type Document = seq<seq<bytes>>

  const MAIN_PREFIX: byte := 0x30

  function Key(token: bytes): bytes {
    [MAIN_PREFIX] + token
  }

  lemma {:induction false} KeyInjective(a: bytes, b: bytes)
    ensures Key(a) == Key(b) <==> a == b
  {
    assert Key(a)[1..] == a && Key(b)[1..] == b;
  }

  const TWO_15: nat := 0x8000

  // The longest key that keeps a page of 4050 bytes within its 16-bit header.
  const MAX_KEY: nat := 61446

  predicate DocOk(doc: Document) {
    |doc| <= TWO_15 && forall c :: 0 <= c < |doc| ==> ColumnOk(doc[c])
  }

  predicate ColumnOk(tokens: seq<bytes>) {
    |tokens| <= TWO_32 && forall i :: 0 <= i < |tokens| ==> |Key(tokens[i])| <= MAX_KEY
  }

  predicate RowidOk(r: int) {
    0 <= r < 0x8000_0000_0000_0000
  }

  // ----- Positions

  /** Where a term is among the first `n` tokens. */
  function Positions(tokens: seq<bytes>, key: bytes, n: nat): seq<nat>
    requires n <= |tokens|
  {
    if n == 0 then []
    else Positions(tokens, key, n - 1) + (if Key(tokens[n - 1]) == key then [n - 1] else [])
  }

  lemma {:induction false} PositionsAre(tokens: seq<bytes>, key: bytes, n: nat)
    requires n <= |tokens|
    ensures forall p :: p in Positions(tokens, key, n) <==> 0 <= p < n && Key(tokens[p]) == key
    ensures Ascending(Positions(tokens, key, n)) && |Positions(tokens, key, n)| <= n
  {
    if n > 0 {
      PositionsAre(tokens, key, n - 1);
      var before := Positions(tokens, key, n - 1);
      assert forall i :: 0 <= i < |before| ==> before[i] in before;
    }
  }

  function Cols(doc: Document, key: bytes): (r: seq<seq<nat>>)
    ensures |r| == |doc|
  {
    seq(|doc|, c requires 0 <= c < |doc| => Positions(doc[c], key, |doc[c]|))
  }

  predicate Has(doc: Document, key: bytes) {
    exists c :: 0 <= c < |doc| && Positions(doc[c], key, |doc[c]|) != []
  }

  // The columns before `c`, and the first `i` tokens of that one.
  function ColsTo(doc: Document, key: bytes, c: nat, i: nat): (r: seq<seq<nat>>)
    requires c < |doc| ==> i <= |doc[c]|
    ensures |r| == |doc|
  {
    seq(|doc|, j requires 0 <= j < |doc| =>
          if j < c then Positions(doc[j], key, |doc[j]|) else if j == c then Positions(doc[c], key, i) else [])
  }

  predicate HasTo(doc: Document, key: bytes, c: nat, i: nat)
    requires c < |doc| ==> i <= |doc[c]|
  {
    || (exists j :: 0 <= j < c && j < |doc| && Positions(doc[j], key, |doc[j]|) != [])
    || (c < |doc| && Positions(doc[c], key, i) != [])
  }

  // One more token.
  lemma {:induction false} NextToken(doc: Document, key: bytes, c: nat, i: nat)
    requires c < |doc| && i < |doc[c]|
    ensures HasTo(doc, key, c, i + 1) <==> HasTo(doc, key, c, i) || Key(doc[c][i]) == key
    ensures Key(doc[c][i]) != key ==> ColsTo(doc, key, c, i + 1) == ColsTo(doc, key, c, i)
    ensures Key(doc[c][i]) == key ==>
              ColsTo(doc, key, c, i + 1) == ColsTo(doc, key, c, i)[c := ColsTo(doc, key, c, i)[c] + [i]]
  {
    var none: seq<nat> := [];
    assert Positions(doc[c], key, i) + none == Positions(doc[c], key, i);
    if Key(doc[c][i]) != key {
      assert forall j :: 0 <= j < |doc| ==> ColsTo(doc, key, c, i + 1)[j] == ColsTo(doc, key, c, i)[j];
    }
  }

  // The end of a column.
  lemma {:induction false} NextColumn(doc: Document, key: bytes, c: nat)
    requires c < |doc|
    ensures HasTo(doc, key, c + 1, 0) <==> HasTo(doc, key, c, |doc[c]|)
    ensures ColsTo(doc, key, c + 1, 0) == ColsTo(doc, key, c, |doc[c]|)
  {
    assert HasTo(doc, key, c + 1, 0) ==> HasTo(doc, key, c, |doc[c]|);
    assert HasTo(doc, key, c, |doc[c]|) ==> HasTo(doc, key, c + 1, 0);
  }

  lemma {:induction false} AllColumns(doc: Document, key: bytes)
    ensures HasTo(doc, key, |doc|, 0) <==> Has(doc, key)
    ensures ColsTo(doc, key, |doc|, 0) == Cols(doc, key)
    ensures !HasTo(doc, key, 0, 0)
    ensures (forall r, del :: Has(doc, key) <==> !Positionless(Posting(r, Cols(doc, key), del)))
  {
    if Has(doc, key) {
      var c :| 0 <= c < |doc| && Positions(doc[c], key, |doc[c]|) != [];
      assert Cols(doc, key)[c] != [];
    }
  }

  function Blank(n: nat): (r: seq<seq<nat>>)
    ensures |r| == n
  {
    seq(n, _ => [])
  }

  function Tombstone(r: int, doc: Document): Posting {
    Posting(r, Blank(|doc|), true)
  }

  // ----- Postings that can be written

  predicate Modest(p: Posting) {
    RowidOk(p.rowid) && |p.cols| <= TWO_15 && forall c :: 0 <= c < |p.cols| ==>
      PositionsOk(p.cols[c]) && |p.cols[c]| <= TWO_32
  }

  lemma {:induction false} CollistShort(ps: seq<nat>, prev: nat)
    requires PositionsOk(ps) && (ps != [] ==> prev <= ps[0])
    ensures |Collist(ps, prev)| <= 9 * |ps|
    decreases ps
  {
    if ps != [] {
      PositionsTail(ps);
      Varint.EncodeLength(ps[0] - prev + 2);
      CollistShort(ps[1..], ps[0]);
    }
  }

  lemma {:induction false} ContentShort(cols: seq<seq<nat>>, c: nat)
    requires ColsOk(cols) && c <= |cols| && forall i :: 0 <= i < |cols| ==> |cols[i]| <= TWO_32
    ensures |Content(cols, c)| <= (|cols| - c) * 0x10_0000_0000
    decreases |cols| - c
  {
    if c < |cols| {
      ContentShort(cols, c + 1);
      CollistShort(cols[c], 0);
      Varint.EncodeLength(c);
    }
  }

  lemma {:induction false} ModestOk(p: Posting)
    requires Modest(p)
    ensures PostingOk(p)
  {
    ContentShort(p.cols, 0);
  }

  lemma {:induction false} ColsModest(doc: Document, key: bytes, r: int, del: bool)
    requires DocOk(doc) && RowidOk(r)
    ensures Modest(Posting(r, Cols(doc, key), del))
  {
    forall c | 0 <= c < |doc|
      ensures PositionsOk(Cols(doc, key)[c]) && |Cols(doc, key)[c]| <= TWO_32
    {
      var tokens := doc[c];
      PositionsAre(tokens, key, |tokens|);
      var ps := Positions(tokens, key, |tokens|);
      assert forall i :: 0 <= i < |ps| ==> ps[i] in ps;
    }
  }

  // ----- A batch of changes

  /** A document before and after a batch. */
  datatype Change = Change(rowid: int, was: Option<Document>, now: Option<Document>)

  predicate ChangeOk(ch: Change) {
    RowidOk(ch.rowid) && (ch.was.Some? ==> DocOk(ch.was.value)) && (ch.now.Some? ==> DocOk(ch.now.value))
  }

  predicate Contains(doc: Option<Document>, key: bytes) {
    doc.Some? && Has(doc.value, key)
  }

  /** What a change leaves in the segment for a term: the new positions, flagged if they replace old ones,
      or a marker for a term that is gone. */
  function ChangePosting(ch: Change, key: bytes): Option<Posting> {
    if Contains(ch.now, key) then Some(Posting(ch.rowid, Cols(ch.now.value, key), Contains(ch.was, key)))
    else if Contains(ch.was, key) then Some(Tombstone(ch.rowid, ch.was.value))
    else None
  }

  /** All postings and keys can be written, and only delete markers are without positions. */
  predicate Good(key: bytes, p: Posting) {
    0 < |key| <= MAX_KEY && Modest(p) && (Positionless(p) ==> p.del)
  }

  predicate GoodRows(t: TermPostings) {
    t.postings != [] && forall j :: 0 <= j < |t.postings| ==> Good(t.key, t.postings[j])
  }

  predicate GoodSeg(seg: Seg) {
    Ordered(seg) && forall i :: 0 <= i < |seg| ==> GoodRows(seg[i])
  }

  lemma {:induction false} PutRowFrom(ps: seq<Posting>, p: Posting, q: Posting)
    requires q in PutRow(ps, p)
    ensures q == p || q in ps
  {
    if ps != [] && p.rowid > ps[0].rowid && q != ps[0] {
      PutRowFrom(ps[1..], p, q);
    }
  }

  lemma {:induction false} RowsFrom(seg: Seg, key: bytes, q: Posting)
    requires q in Rows(seg, key)
    ensures exists i :: 0 <= i < |seg| && seg[i].key == key && q in seg[i].postings
  {
    if seg[0].key != key {
      RowsFrom(seg[1..], key, q);
      var i :| 0 <= i < |seg| - 1 && seg[1..][i].key == key && q in seg[1..][i].postings;
      assert seg[i + 1].key == key;
    }
  }

  lemma {:induction false} SetRowsFrom(seg: Seg, key: bytes, rows: seq<Posting>, t: TermPostings)
    requires t in SetRows(seg, key, rows)
    ensures t == TermPostings(key, rows) || t in seg
  {
    if seg != [] && LexCmp(key, seg[0].key) == Greater && t != seg[0] {
      SetRowsFrom(seg[1..], key, rows, t);
    }
  }

  lemma {:induction false} PutGood(seg: Seg, key: bytes, p: Posting)
    requires GoodSeg(seg) && Good(key, p)
    ensures GoodSeg(Put(seg, key, p))
  {
    ModestOk(p);
    PutOrdered(seg, key, p);
    var rows := PutRow(Rows(seg, key), p);
    forall i | 0 <= i < |Put(seg, key, p)|
      ensures GoodRows(Put(seg, key, p)[i])
    {
      var t := Put(seg, key, p)[i];
      SetRowsFrom(seg, key, rows, t);
      if t !in seg {
        forall j | 0 <= j < |rows|
          ensures Good(key, rows[j])
        {
          PutRowFrom(Rows(seg, key), p, rows[j]);
          if rows[j] != p {
            RowsFrom(seg, key, rows[j]);
          }
        }
      }
    }
  }

  // ----- Building the terms

  // The terms so far are marked as deleted, unless there is a posting already.
  ghost predicate Marked(m: Seg, out: Seg, rowid: int, doc: Document, c: nat, i: nat)
    requires c < |doc| ==> i <= |doc[c]|
  {
    forall key, r :: Lookup(out, key, r) == MarkedOr(Lookup(m, key, r), r == rowid && HasTo(doc, key, c, i), rowid, doc)
  }

  function MarkedOr(p: Option<Posting>, gone: bool, rowid: int, doc: Document): Option<Posting> {
    if gone && p.None? then Some(Tombstone(rowid, doc)) else p
  }

  lemma {:induction false} MarkToken(m: Seg, was: Seg, out: Seg, rowid: int, doc: Document, c: nat, i: nat)
    requires c < |doc| && i < |doc[c]| && Marked(m, was, rowid, doc, c, i)
    requires var key := Key(doc[c][i]);
             out == if Lookup(was, key, rowid).None? then Put(was, key, Tombstone(rowid, doc)) else was
    ensures Marked(m, out, rowid, doc, c, i + 1)
  {
    var token := Key(doc[c][i]);
    forall key, r
      ensures Lookup(out, key, r) == MarkedOr(Lookup(m, key, r), r == rowid && HasTo(doc, key, c, i + 1), rowid, doc)
    {
      NextToken(doc, key, c, i);
      PutLookup(was, token, Tombstone(rowid, doc), key, r);
      assert Lookup(was, key, r) == MarkedOr(Lookup(m, key, r), r == rowid && HasTo(doc, key, c, i), rowid, doc);
    }
  }

  lemma {:induction false} MarkColumn(m: Seg, out: Seg, rowid: int, doc: Document, c: nat)
    requires c < |doc| && Marked(m, out, rowid, doc, c, |doc[c]|)
    ensures Marked(m, out, rowid, doc, c + 1, 0)
  {
    forall key, r
      ensures Lookup(out, key, r) == MarkedOr(Lookup(m, key, r), r == rowid && HasTo(doc, key, c + 1, 0), rowid, doc)
    {
      NextColumn(doc, key, c);
    }
  }

  // Mark a term as deleted, unless there is a posting already.
  method MarkTerm(m: Seg, key: bytes, rowid: int, doc: Document) returns (out: Seg)
    requires GoodSeg(m) && DocOk(doc) && RowidOk(rowid) && 0 < |key| <= MAX_KEY
    ensures GoodSeg(out)
    ensures out == if Lookup(m, key, rowid).None? then Put(m, key, Tombstone(rowid, doc)) else m
  {
    out := m;
    if Lookup(m, key, rowid).None? {
      PutGood(m, key, Tombstone(rowid, doc));
      out := Put(m, key, Tombstone(rowid, doc));
    }
  }

  // Mark the terms of a column.
  method MarkTokens(was: Seg, rowid: int, doc: Document, c: nat, ghost m: Seg) returns (out: Seg)
    requires GoodSeg(was) && DocOk(doc) && RowidOk(rowid) && c < |doc| && Marked(m, was, rowid, doc, c, 0)
    ensures GoodSeg(out) && Marked(m, out, rowid, doc, c + 1, 0)
  {
    out := was;
    assert ColumnOk(doc[c]);
    for i := 0 to |doc[c]|
      invariant GoodSeg(out) && Marked(m, out, rowid, doc, c, i)
    {
      ghost var before := out;
      out := MarkTerm(out, Key(doc[c][i]), rowid, doc);
      MarkToken(m, before, out, rowid, doc, c, i);
    }
    MarkColumn(m, out, rowid, doc, c);
  }

  lemma {:induction false} MarkNothing(m: Seg, rowid: int, doc: Document)
    ensures Marked(m, m, rowid, doc, 0, 0)
  {
  }

  /** Mark every term of an old document as deleted. */
  method MarkDeleted(m: Seg, rowid: int, doc: Document) returns (out: Seg)
    requires GoodSeg(m) && DocOk(doc) && RowidOk(rowid)
    ensures GoodSeg(out) && Marked(m, out, rowid, doc, |doc|, 0)
  {
    out := m;
    MarkNothing(m, rowid, doc);
    for c := 0 to |doc|
      invariant GoodSeg(out) && Marked(m, out, rowid, doc, c, 0)
    {
      out := MarkTokens(out, rowid, doc, c, m);
    }
  }

  // The positions of every term so far.
  ghost predicate Collected(terms: map<bytes, seq<seq<nat>>>, doc: Document, c: nat, i: nat)
    requires c < |doc| ==> i <= |doc[c]|
  {
    forall key :: Collects(terms, key, HasTo(doc, key, c, i), ColsTo(doc, key, c, i))
  }

  predicate Collects(terms: map<bytes, seq<seq<nat>>>, key: bytes, has: bool, cols: seq<seq<nat>>) {
    if has then key in terms && terms[key] == cols else key !in terms
  }

  // A term not seen before has no positions so far.
  lemma {:induction false} NotSeen(doc: Document, key: bytes, c: nat, i: nat)
    requires (c < |doc| ==> i <= |doc[c]|) && !HasTo(doc, key, c, i)
    ensures ColsTo(doc, key, c, i) == Blank(|doc|)
  {
  }

  lemma {:induction false} CollectToken(was: map<bytes, seq<seq<nat>>>, now: map<bytes, seq<seq<nat>>>, doc: Document,
                                        c: nat, i: nat)
    requires c < |doc| && i < |doc[c]| && Collected(was, doc, c, i)
    requires var key := Key(doc[c][i]);
             var cols := if key in was then was[key] else Blank(|doc|);
             |cols| == |doc| && now == was[key := cols[c := cols[c] + [i]]]
    ensures Collected(now, doc, c, i + 1)
  {
    var token := Key(doc[c][i]);
    var next := i + 1;
    forall key
      ensures Collects(now, key, HasTo(doc, key, c, next), ColsTo(doc, key, c, next))
    {
      NextToken(doc, key, c, i);
      assert Collects(was, key, HasTo(doc, key, c, i), ColsTo(doc, key, c, i));
      if !HasTo(doc, key, c, i) {
        NotSeen(doc, key, c, i);
      }
    }
  }

  lemma {:induction false} CollectColumn(terms: map<bytes, seq<seq<nat>>>, doc: Document, c: nat)
    requires c < |doc| && Collected(terms, doc, c, |doc[c]|)
    ensures Collected(terms, doc, c + 1, 0)
  {
    var next := c + 1;
    forall key
      ensures Collects(terms, key, HasTo(doc, key, next, 0), ColsTo(doc, key, next, 0))
    {
      NextColumn(doc, key, c);
      assert Collects(terms, key, HasTo(doc, key, c, |doc[c]|), ColsTo(doc, key, c, |doc[c]|));
    }
  }

  /** The positions of every term of a document. */
  method CollectPositions(doc: Document) returns (terms: map<bytes, seq<seq<nat>>>)
    ensures forall key :: key in terms <==> Has(doc, key)
    ensures forall key :: key in terms ==> terms[key] == Cols(doc, key)
  {
    terms := map[];
    for c := 0 to |doc|
      invariant Collected(terms, doc, c, 0)
    {
      for i := 0 to |doc[c]|
        invariant Collected(terms, doc, c, i)
      {
        var key := Key(doc[c][i]);
        ghost var was := terms;
        assert Collects(terms, key, HasTo(doc, key, c, i), ColsTo(doc, key, c, i));
        var cols := if key in terms then terms[key] else Blank(|doc|);
        terms := terms[key := cols[c := cols[c] + [i]]];
        CollectToken(was, terms, doc, c, i);
      }
      CollectColumn(terms, doc, c);
    }
    forall key
      ensures Collects(terms, key, Has(doc, key), Cols(doc, key))
    {
      AllColumns(doc, key);
      assert Collects(terms, key, HasTo(doc, key, |doc|, 0), ColsTo(doc, key, |doc|, 0));
    }
  }

  // ----- New postings

  // The postings of the terms in `done` have been put over those in `m`.
  ghost predicate Overlaid(m: Seg, out: Seg, rowid: int, doc: Document, done: set<bytes>) {
    forall key, r :: Lookup(out, key, r) == OverlaidOr(Lookup(m, key, r), r == rowid && key in done, rowid, doc, key)
  }

  // A posting that is there keeps its flag.
  function OverlaidOr(p: Option<Posting>, new_: bool, rowid: int, doc: Document, key: bytes): Option<Posting> {
    if new_ then Some(Posting(rowid, Cols(doc, key), p.Some? && p.value.del)) else p
  }

  lemma {:induction false} OverlayKey(m: Seg, was: Seg, rowid: int, doc: Document, done: set<bytes>, key: bytes)
    requires Overlaid(m, was, rowid, doc, done) && key !in done
    ensures var p := Lookup(was, key, rowid);
            Overlaid(m, Put(was, key, Posting(rowid, Cols(doc, key), p.Some? && p.value.del)), rowid, doc, done + {key})
  {
    var p := Posting(rowid, Cols(doc, key), Lookup(was, key, rowid).Some? && Lookup(was, key, rowid).value.del);
    var out := Put(was, key, p);
    forall k, r
      ensures Lookup(out, k, r) == OverlaidOr(Lookup(m, k, r), r == rowid && k in done + {key}, rowid, doc, k)
    {
      PutLookup(was, key, p, k, r);
      assert Lookup(was, k, r) == OverlaidOr(Lookup(m, k, r), r == rowid && k in done, rowid, doc, k);
    }
  }

  // The postings of a document have been put over those in `m`.
  ghost predicate Added(m: Seg, out: Seg, rowid: int, doc: Document) {
    forall key, r :: Lookup(out, key, r) == OverlaidOr(Lookup(m, key, r), r == rowid && Has(doc, key), rowid, doc, key)
  }

  /** Put the postings of a new document over the markers of the old one. */
  method AddPostings(m: Seg, rowid: int, doc: Document) returns (out: Seg)
    requires GoodSeg(m) && DocOk(doc) && RowidOk(rowid)
    ensures GoodSeg(out) && Added(m, out, rowid, doc)
  {
    out := m;
    var terms := CollectPositions(doc);
    ghost var done: set<bytes> := {};
    var keys := terms.Keys;
    while keys != {}
      invariant keys <= terms.Keys && done == terms.Keys - keys
      invariant GoodSeg(out) && Overlaid(m, out, rowid, doc, done)
    {
      var key :| key in keys;
      var p := Lookup(out, key, rowid);
      OverlayKey(m, out, rowid, doc, done, key);
      GoodPosting(doc, key, rowid, p.Some? && p.value.del);
      PutGood(out, key, Posting(rowid, terms[key], p.Some? && p.value.del));
      out := Put(out, key, Posting(rowid, terms[key], p.Some? && p.value.del));
      keys, done := keys - {key}, done + {key};
    }
    assert done == terms.Keys;
  }

  lemma {:induction false} GoodPosting(doc: Document, key: bytes, rowid: int, del: bool)
    requires DocOk(doc) && RowidOk(rowid) && Has(doc, key)
    ensures Good(key, Posting(rowid, Cols(doc, key), del))
  {
    ColsModest(doc, key, rowid, del);
    AllColumns(doc, key);
    var c :| 0 <= c < |doc| && Positions(doc[c], key, |doc[c]|) != [];
    PositionsAre(doc[c], key, |doc[c]|);
    var p := Positions(doc[c], key, |doc[c]|)[0];
    assert p in Positions(doc[c], key, |doc[c]|);
  }

  // ----- The terms of a batch

  predicate ChangesOk(changes: seq<Change>) {
    && (forall i :: 0 <= i < |changes| ==> ChangeOk(changes[i]))
    && (forall i, j :: 0 <= i < j < |changes| ==> changes[i].rowid != changes[j].rowid)
  }

  /** The change to a document. */
  function ChangeOf(changes: seq<Change>, r: int): Option<Change> {
    if changes == [] then None
    else
      var n := |changes| - 1;
      if changes[n].rowid == r then Some(changes[n]) else ChangeOf(changes[..n], r)
  }

  lemma {:induction false} NoChange(changes: seq<Change>, r: int)
    requires forall i :: 0 <= i < |changes| ==> changes[i].rowid != r
    ensures ChangeOf(changes, r) == None
  {
    if changes != [] {
      NoChange(changes[..|changes| - 1], r);
    }
  }

  function FromChanges(changes: seq<Change>, key: bytes, r: int): Option<Posting> {
    match ChangeOf(changes, r)
    case None => None
    case Some(ch) => ChangePosting(ch, key)
  }

  ghost predicate Builds(terms: Seg, changes: seq<Change>) {
    forall key, r :: Lookup(terms, key, r) == FromChanges(changes, key, r)
  }

  // One change more.
  lemma {:induction false} ChangeBuilds(changes: seq<Change>, ch: Change, m: Seg, marked: Seg, out: Seg)
    requires Builds(m, changes) && forall i :: 0 <= i < |changes| ==> changes[i].rowid != ch.rowid
    requires if ch.was.Some? then Marked(m, marked, ch.rowid, ch.was.value, |ch.was.value|, 0) else marked == m
    requires if ch.now.Some? then Added(marked, out, ch.rowid, ch.now.value) else out == marked
    ensures Builds(out, changes + [ch])
  {
    var all := changes + [ch];
    assert all[..|changes|] == changes;
    forall key, r
      ensures Lookup(out, key, r) == FromChanges(all, key, r)
    {
      assert Lookup(m, key, r) == FromChanges(changes, key, r);
      if r == ch.rowid {
        NoChange(changes, r);
      }
      if ch.was.Some? {
        var was := ch.was.value;
        AllColumns(was, key);
        assert Lookup(marked, key, r)
            == MarkedOr(Lookup(m, key, r), r == ch.rowid && HasTo(was, key, |was|, 0), ch.rowid, was);
      }
    }
  }

  /** The terms of a batch of changes. */
  method BuildTerms(changes: seq<Change>) returns (terms: Seg)
    requires ChangesOk(changes)
    ensures GoodSeg(terms) && Builds(terms, changes)
  {
    terms := [];
    for i := 0 to |changes|
      invariant GoodSeg(terms) && Builds(terms, changes[..i])
    {
      var ch, m := changes[i], terms;
      if ch.was.Some? {
        terms := MarkDeleted(terms, ch.rowid, ch.was.value);
      }
      ghost var marked := terms;
      if ch.now.Some? {
        terms := AddPostings(terms, ch.rowid, ch.now.value);
      }
      ChangeBuilds(changes[..i], ch, m, marked, terms);
      assert changes[..i + 1] == changes[..i] + [ch];
    }
    assert changes[..|changes|] == changes;
  }
}
