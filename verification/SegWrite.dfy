/** The streaming writer of full-text segments. Pages are filled and turned while a doclist is streamed,
    in the manner of a bulk load or of an incremental merge; reading the pages back gives every term with
    its postings, wherever the pages were turned. */
module SegWrite {
  import opened Seqs
  import opened Bytes
  import opened BigEndian
  import opened Poslist
  import opened SegLeaf
  import opened SegRead
  import opened Doclist
  import opened SegBuild
  import opened SegIdx
  import Varint

  // ----- Small steps

  method WritePgidx(offs: seq<nat>) returns (out: bytes)
    requires Rising(offs, 0)
    ensures out == Pgidx(offs, 0)
  {
    out := [];
    var prev, rest := 0, offs;
    while rest != []
      invariant Rising(rest, prev) && out + Pgidx(rest, prev) == Pgidx(offs, 0)
      decreases rest
    {
      Assoc(out, Varint.Encode(rest[0] - prev), Pgidx(rest[1..], rest[0]));
      out := out + Varint.Encode(rest[0] - prev);
      prev, rest := rest[0], rest[1..];
    }
    assert out + [] == out;
  }

  /** A varint ends here, or the first begins. */
  ghost predicate Boundary(a: bytes, n: nat)
    decreases |a|
  {
    n == 0 || (!Varint.Decode(a).Truncated? && Varint.Decode(a).length <= n
               && Boundary(a[Varint.Decode(a).length..], n - Varint.Decode(a).length))
  }

  lemma {:induction false} BoundaryStep(a: bytes, k: nat, n: nat)
    requires !Varint.Decode(a).Truncated? && Varint.Decode(a).length == k && k <= |a| && Boundary(a[k..], n)
    ensures Boundary(a, k + n)
  {
  }

  // From one end of a varint to the next.
  lemma {:induction false} BoundaryNext(a: bytes, n: nat)
    requires Boundary(a, n)
    ensures n <= |a|
    ensures !Varint.Decode(a[n..]).Truncated? ==> Boundary(a, n + Varint.Decode(a[n..]).length)
    decreases |a|
  {
    if n == 0 {
      assert a[0..] == a;
    } else {
      var k := Varint.Decode(a).length;
      BoundaryNext(a[k..], n - k);
      assert a[k..][n - k..] == a[n..];
      var e := Varint.Decode(a[n..]);
      if !e.Truncated? {
        BoundaryStep(a, k, n - k + e.length);
      }
    }
  }

  // Nothing in between.
  lemma {:induction false} BoundaryGap(a: bytes, n: nat, m: nat)
    requires Boundary(a, n) && Boundary(a, m) && n < m
    ensures n <= |a| && !Varint.Decode(a[n..]).Truncated? && n + Varint.Decode(a[n..]).length <= m
    decreases |a|
  {
    if n == 0 {
      assert a[0..] == a;
    } else {
      var k := Varint.Decode(a).length;
      BoundaryGap(a[k..], n - k, m - k);
      assert a[k..][n - k..] == a[n..];
    }
  }

  // After `n` the next varint goes beyond `max`, or there is none.
  lemma {:induction false} LastBoundary(a: bytes, n: nat, max: int)
    requires Boundary(a, n) && n <= |a|
    requires Varint.Decode(a[n..]).Truncated? || n + Varint.Decode(a[n..]).length > max
    ensures forall m: nat :: Boundary(a, m) && m <= max ==> m <= n
  {
    forall m: nat | Boundary(a, m) && m <= max
      ensures m <= n
    {
      if n < m {
        BoundaryGap(a, n, m);
      }
    }
  }

  /** The longest run of whole varints at the start of `buf` of at most `nMax` bytes, but at least the first. */
  method PoslistPrefix(buf: bytes, nMax: int) returns (n: nat)
    requires buf != []
    ensures 0 < n <= |buf| && (n <= nMax || n <= 9)
    ensures Varint.Decode(buf).Truncated? || Boundary(buf, n)
    ensures forall m: nat :: Boundary(buf, m) && m <= nMax ==> m <= n
  {
    assert buf[0..] == buf;
    BoundaryNext(buf, 0);
    var d := Varint.Decode(buf);
    n := if d.Truncated? then 1 else d.length;
    if n < nMax {
      while true
        invariant 0 < n <= |buf| && (n <= nMax || n <= 9) && (d.Truncated? || Boundary(buf, n))
        decreases |buf| - n
      {
        var e := Varint.Decode(buf[n..]);
        if e.Truncated? || n + e.length > nMax {
          LastBoundary(buf, if d.Truncated? then 0 else n, nMax);
          return;
        }
        if !d.Truncated? {
          BoundaryNext(buf, n);
        }
        n := n + e.length;
      }
    }
  }

  /** The shortest run of whole varints at the start of `a` of at least `nReq` bytes, or all of them. */
  method VarintsUntil(a: bytes, nReq: int) returns (n: nat)
    requires Varint.Whole(a)
    ensures n <= |a| && Varint.Whole(a[n..]) && (n == 0 || n < nReq + 9) && (a != [] && nReq > 0 ==> n > 0)
    ensures Boundary(a, n) && (n >= nReq || n == |a|)
    ensures forall m: nat :: Boundary(a, m) && m >= nReq ==> n <= m
  {
    n := 0;
    assert a[0..] == a;
    while n < nReq
      invariant n <= |a| && Varint.Whole(a[n..]) && (n == 0 || n < nReq + 9)
      invariant a != [] && nReq > 0 && n == 0 ==> n < nReq
      invariant Boundary(a, n) && forall m: nat :: Boundary(a, m) && m >= nReq ==> n <= m
      decreases |a| - n
    {
      var d := Varint.Decode(a[n..]);
      if d.Truncated? {
        assert a[n..] == [];
        return;
      }
      assert a[n..][d.length..] == a[n + d.length..];
      BoundaryNext(a, n);
      forall m: nat | Boundary(a, m) && m >= nReq
        ensures n + d.length <= m
      {
        BoundaryGap(a, n, m);
      }
      n := n + d.length;
    }
  }

  // ----- The state of the writer

  // The page being filled, and what is finished.
  datatype Draft = Draft(body: bytes, offs: seq<nat>, first: nat, prevKey: Option<bytes>, inPage: bool)

  datatype Shelf = Shelf(leaves: seq<bytes>, pgno: nat, ix: IdxState)

  // What the pages hold: the finished leaves, the one being filled, and the doclists on them.
  datatype Pages = Pages(done: seq<Leaf>, cur: Leaf, docs: seq<Doc>)

  ghost predicate Draws(d: Draft, cur: Leaf) {
    && Building(cur) && LeafOk(cur) && d.body == Body(cur) && d.offs == TermOffsets(cur) && d.first == FirstRowid(cur)
    && d.prevKey == LastKey(cur.parts) && d.inPage == (cur.parts == [] && !cur.abs)
  }

  ghost predicate Keeps(s: Shelf, c: Pages) {
    && PagesOf(s.leaves, c.done) && s.pgno == |c.done| + 1 && c.docs == Step(ReadFrom([], c.done), c.cur)
    && Indexes(s.ix, c.done, c.cur)
  }

  /** The writer's fields describe its pages. */
  ghost predicate Describes(d: Draft, s: Shelf, c: Pages) {
    forall k: nat {:trigger Unfold(k)} :: Unfold(k) ==> Draws(d, c.cur) && Keeps(s, c)
  }

  const BLANK_DRAFT := Draft([], [], 0, None, true)

  lemma {:induction false} Described(d: Draft, s: Shelf, c: Pages)
    requires Describes(d, s, c)
    ensures Draws(d, c.cur) && Keeps(s, c)
  {
    assert Unfold(0);
  }

  lemma {:induction false} DrawsBlank()
    ensures Draws(BLANK_DRAFT, BLANK)
  {
    NoTerms(BLANK);
  }

  lemma {:induction false} Nothing()
    ensures Describes(BLANK_DRAFT, Shelf([], 1, IdxState([], None, None, None)), Pages([], BLANK, []))
  {
    DrawsBlank();
    BlankStep([]);
  }

  lemma {:induction false} Turned(d: Draft, s: Shelf, c: Pages, leaf: bytes)
    requires Describes(d, s, c) && IsPage(leaf, c.cur)
    ensures Describes(Draft([], [], 0, None, true), Shelf(s.leaves + [leaf], s.pgno + 1, s.ix.Turn(s.pgno)),
                      Pages(c.done + [c.cur], BLANK, c.docs))
  {
    Described(d, s, c);
    DrawsBlank();
    FlushDocs(c.done, c.cur);
    PagesMore(s.leaves, c.done, leaf, c.cur);
    IndexTurn(s.ix, c.done, c.cur);
  }

  lemma {:induction false} Extended(d: Draft, s: Shelf, c: Pages, b: bytes)
    requires Describes(d, s, c) && c.docs != [] && b != [] && 4 + |d.body| + |b| < 0x1_0000
    ensures Describes(d.(body := d.body + b), s, Pages(c.done, Append(c.cur, b), GrowLast(c.docs, b, AtStart(c.cur))))
    ensures AtStart(c.cur) ==> LastBuf(c.docs) == []
  {
    Described(d, s, c);
    AppendPage(c.cur, b);
    StepLength(ReadFrom([], c.done), c.cur);
    AppendDocs(ReadFrom([], c.done), c.cur, b);
    IndexAppend(s.ix, c.done, c.cur, b);
  }

  lemma {:induction false} Resumed(d: Draft, s: Shelf, c: Pages, b: bytes)
    requires Describes(d, s, c) && d.inPage && c.docs != [] && b != [] && 4 + |d.body| + |b| < 0x1_0000
    ensures Describes(d.(body := d.body + b, first := 4 + |d.body|, inPage := false), s,
                      Pages(c.done, Resume(c.cur, b), GrowLast(c.docs, b, true)))
  {
    Described(d, s, c);
    ResumePage(c.cur, b);
    StepLength(ReadFrom([], c.done), c.cur);
    ResumeDocs(ReadFrom([], c.done), c.cur, b);
  }

  ghost function WithTerm(c: Pages, key: bytes): Pages {
    Pages(c.done, AddTerm(c.cur, key), c.docs + [Doc(key, NOTHING)])
  }

  lemma {:induction false} TermAdded(d: Draft, s: Shelf, c: Pages, key: bytes, record: bytes)
    requires Describes(d, s, c) && KeyOk(key) && record == TermRecord(d.prevKey, key)
    requires 4 + |d.body| + |record| < 0x1_0000
    ensures Describes(Draft(d.body + record, d.offs + [4 + |d.body|], d.first, Some(key), false),
                      Shelf(s.leaves, s.pgno, s.ix.Note(key)), WithTerm(c, key))
  {
    Described(d, s, c);
    AddTermPage(c.cur, key);
    AddTermDocs(ReadFrom([], c.done), c.cur, key);
    IndexNote(s.ix, c.done, c.cur, key);
  }

  // The number of doclists on the pages.
  lemma {:induction false} StepLength(docs: seq<Doc>, l: Leaf)
    ensures |Step(docs, l)| == |docs| + |l.parts|
  {
  }

  lemma {:induction false} GrowTwice(docs: seq<Doc>, a: bytes, b: bytes)
    requires docs != []
    ensures GrowLast(docs, a, false) != []
    ensures GrowLast(GrowLast(docs, a, false), b, false) == GrowLast(docs, a + b, false)
  {
    var n := |docs| - 1;
    var once := GrowLast(docs, a, false);
    assert once[..n] == docs[..n] && once[n] == Doc(docs[n].key, Grow(docs[n].flat, a, false));
    Assoc(docs[n].flat.buf, a, b);
  }

  lemma {:induction false} GrowNothing(docs: seq<Doc>)
    requires docs != []
    ensures GrowLast(docs, [], false) == docs
  {
    var n := |docs| - 1;
    var none: bytes := [];
    assert docs[n].flat.buf + none == docs[n].flat.buf;
    assert docs == docs[..n] + [docs[n]];
  }

  ghost function LastBuf(docs: seq<Doc>): bytes
    requires docs != []
  {
    docs[|docs| - 1].flat.buf
  }

  class SegWriter {
    const pgsz: nat
    const mergeMode: bool
    var leaves: seq<bytes>
    var body: bytes
    var termOffsets: seq<nat>
    var firstRowidOff: nat
    var prevTermKey: Option<bytes>
    var prevRowid: int
    var ix: IdxState
    var pgno: nat
    var firstRowidInPage: bool
    var firstRowidInDoclist: bool
    ghost var content: Pages

    ghost function Page(): Draft
      reads this
    {
      Draft(body, termOffsets, firstRowidOff, prevTermKey, firstRowidInPage)
    }

    ghost function Finished(): Shelf
      reads this
    {
      Shelf(leaves, pgno, ix)
    }

    ghost predicate Valid()
      reads this
    {
      16 <= pgsz && pgsz + 40 <= 0x1_0000 && Describes(Page(), Finished(), content)
    }

    // What the size tests compare with the page size.
    ghost function Size(): nat
      reads this
    {
      4 + |body|
    }

    constructor (pgsz: nat, mergeMode: bool)
      requires pgsz + 40 <= 0x1_0000
      ensures Valid() && content == Pages([], BLANK, []) && this.mergeMode == mergeMode
      ensures this.pgsz == if pgsz < 16 then 16 else pgsz
    {
      this.pgsz := if pgsz < 16 then 16 else pgsz;
      this.mergeMode := mergeMode;
      leaves, ix, body, termOffsets, firstRowidOff := [], IdxState([], None, None, None), [], [], 0;
      prevTermKey, prevRowid := None, 0;
      pgno, firstRowidInPage, firstRowidInDoclist := 1, true, true;
      content := Pages([], BLANK, []);
      Nothing();
    }

    // The footer of the page as it stands.
    method Footer() returns (footer: bytes)
      requires Valid()
      ensures LeafOk(content.cur) && Rising(TermOffsets(content.cur), 0) && footer == Pgidx(TermOffsets(content.cur), 0)
      ensures body == Body(content.cur) && firstRowidOff == FirstRowid(content.cur) && (body == [] ==> footer == [])
    {
      Described(Page(), Finished(), content);
      LeafFooter(content.cur);
      footer := WritePgidx(termOffsets);
      if body == [] {
        EmptyBody(content.cur);
      }
    }

    // The bytes on the page with those of the footer.
    method Used() returns (n: nat)
      requires Valid()
      ensures n >= Size() && (body == [] ==> n == 4)
    {
      var footer := Footer();
      n := 4 + |body| + |footer|;
    }

    method FinishLeaf() returns (leaf: bytes)
      requires Valid()
      ensures IsPage(leaf, content.cur)
    {
      var footer := Footer();
      leaf := Be16(firstRowidOff) + Be16(4 + |body|) + body + footer;
    }

    // Put the finished page away and start a new one.
    method PutAway(leaf: bytes)
      modifies this
      ensures Page() == Draft([], [], 0, None, true)
      ensures Finished() == Shelf(old(leaves) + [leaf], old(pgno) + 1, old(ix).Turn(old(pgno)))
      ensures content == Pages(old(content.done) + [old(content.cur)], BLANK, old(content.docs))
      ensures firstRowidInDoclist == old(firstRowidInDoclist)
    {
      leaves, ix, pgno := leaves + [leaf], ix.Turn(pgno), pgno + 1;
      body, termOffsets, firstRowidOff, prevTermKey, prevRowid := [], [], 0, None, 0;
      firstRowidInPage := true;
      content := Pages(content.done + [content.cur], BLANK, content.docs);
    }

    /** Turn the page. */
    method Flush()
      requires Valid()
      modifies this
      ensures Valid() && content == Pages(old(content.done) + [old(content.cur)], BLANK, old(content.docs))
      ensures body == [] && firstRowidInPage && firstRowidInDoclist == old(firstRowidInDoclist)
    {
      var leaf := FinishLeaf();
      Turned(Page(), Finished(), content, leaf);
      PutAway(leaf);
    }

    // Doclist bytes at the end of the page.
    method Put(b: bytes)
      requires content.docs != []
      modifies this`body, this`content
      ensures Page() == old(Page()).(body := old(body) + b) && Finished() == old(Finished())
      ensures content == Pages(old(content.done), Append(old(content.cur), b),
                                 GrowLast(old(content.docs), b, AtStart(old(content.cur))))
    {
      body := body + b;
      content := Pages(content.done, Append(content.cur, b), GrowLast(content.docs, b, AtStart(content.cur)));
    }

    method Extend(b: bytes)
      requires Valid() && b != [] && content.docs != [] && Size() + |b| < 0x1_0000
      modifies this`body, this`content
      ensures Valid() && body == old(body) + b
      ensures content.docs == GrowLast(old(content.docs), b, AtStart(old(content.cur)))
      ensures AtStart(old(content.cur)) ==> LastBuf(old(content.docs)) == []
    {
      Extended(Page(), Finished(), content, b);
      Put(b);
    }

    // The first rowid on a page without terms.
    method PutFirst(b: bytes)
      requires content.docs != []
      modifies this`body, this`content, this`firstRowidOff, this`firstRowidInPage
      ensures Page() == old(Page()).(body := old(body) + b, first := 4 + |old(body)|, inPage := false)
      ensures Finished() == old(Finished())
      ensures content == Pages(old(content.done), Resume(old(content.cur), b), GrowLast(old(content.docs), b, true))
    {
      firstRowidOff, firstRowidInPage := 4 + |body|, false;
      body := body + b;
      content := Pages(content.done, Resume(content.cur, b), GrowLast(content.docs, b, true));
    }

    method ResumeWith(b: bytes)
      requires Valid() && firstRowidInPage && b != [] && content.docs != [] && Size() + |b| < 0x1_0000
      modifies this`body, this`content, this`firstRowidOff, this`firstRowidInPage
      ensures Valid() && !firstRowidInPage && body == old(body) + b
      ensures content.docs == GrowLast(old(content.docs), b, true)
    {
      Resumed(Page(), Finished(), content, b);
      PutFirst(b);
    }

    // The rowid, on the page as it is.
    method PutRowid(rowid: int) returns (ghost abs: bool, ghost mark: bool)
      requires Valid() && content.docs != [] && (firstRowidInDoclist <==> LastBuf(content.docs) == [])
      requires 0 <= rowid < Varint.TWO_64
      requires !firstRowidInDoclist && !firstRowidInPage ==> 0 <= rowid - prevRowid < Varint.TWO_64
      requires Size() + 9 < 0x1_0000
      modifies this`body, this`content, this`firstRowidOff, this`firstRowidInPage
      ensures Valid() && (abs <==> mark || LastBuf(old(content.docs)) == [])
      ensures abs == (firstRowidInDoclist || old(firstRowidInPage))
      ensures abs || 0 <= rowid - prevRowid < Varint.TWO_64
      ensures content.docs == GrowLast(old(content.docs), Varint.Encode(if abs then rowid else rowid - prevRowid), mark)
      ensures !firstRowidInPage && Size() <= old(Size()) + 9
    {
      abs := firstRowidInDoclist || firstRowidInPage;
      mark := firstRowidInPage || AtStart(content.cur);
      if firstRowidInPage {
        Varint.EncodeLength(rowid);
        ResumeWith(Varint.Encode(rowid));
      } else {
        var field := if firstRowidInDoclist then rowid else rowid - prevRowid;
        Varint.EncodeLength(field);
        Extend(Varint.Encode(field));
      }
    }

    // Merging turns a full page before a rowid.
    method MakeRoom()
      requires Valid()
      modifies this
      ensures Valid() && content.docs == old(content.docs) && firstRowidInDoclist == old(firstRowidInDoclist)
      ensures Size() <= old(Size()) && (mergeMode ==> Size() < pgsz)
      ensures firstRowidInPage || (prevRowid == old(prevRowid) && !old(firstRowidInPage))
    {
      var used := Used();
      if mergeMode && used >= pgsz {
        Flush();
      }
    }

    /** Write a rowid: absolute at the start of a doclist and on a fresh page, else as the distance from
        the one before. */
    method AppendRowid(rowid: int) returns (ghost abs: bool, ghost mark: bool)
      requires Valid() && content.docs != [] && (firstRowidInDoclist <==> LastBuf(content.docs) == [])
      requires 0 <= rowid < Varint.TWO_64
      requires !firstRowidInDoclist && !firstRowidInPage ==> 0 <= rowid - prevRowid < Varint.TWO_64
      requires Size() + 9 < 0x1_0000
      modifies this
      ensures Valid() && (abs <==> mark || LastBuf(old(content.docs)) == [])
      ensures abs || (!old(firstRowidInPage) && 0 <= rowid - old(prevRowid) < Varint.TWO_64)
      ensures content.docs
           == GrowLast(old(content.docs), Varint.Encode(if abs then rowid else rowid - old(prevRowid)), mark)
      ensures !firstRowidInPage && !firstRowidInDoclist && prevRowid == rowid
      ensures Size() <= old(Size()) + 9 && (mergeMode ==> Size() <= pgsz + 8)
    {
      MakeRoom();
      abs, mark := PutRowid(rowid);
      SetPrevRowid(rowid);
    }

    method SetPrevRowid(rowid: int)
      modifies this`prevRowid, this`firstRowidInDoclist
      ensures Page() == old(Page()) && Finished() == old(Finished())
      ensures prevRowid == rowid && !firstRowidInDoclist
    {
      prevRowid, firstRowidInDoclist := rowid, false;
    }

    // Bytes of a doclist that has been started.
    method Stream(b: bytes)
      requires Valid() && b != [] && content.docs != [] && LastBuf(content.docs) != [] && Size() + |b| < 0x1_0000
      modifies this`body, this`content
      ensures Valid() && content.docs == GrowLast(old(content.docs), b, false) && Size() == old(Size()) + |b|
    {
      Extend(b);
    }

    // One section of a position list that does not fit the page.
    method StreamSection(rest: bytes) returns (n: nat)
      requires Valid() && rest != [] && content.docs != [] && LastBuf(content.docs) != [] && Size() + 9 < 0x1_0000
      modifies this
      ensures Valid() && 0 < n <= |rest| && content.docs == GrowLast(old(content.docs), rest[..n], false)
      ensures firstRowidInDoclist == old(firstRowidInDoclist) && Size() < pgsz
      ensures firstRowidInPage || (prevRowid == old(prevRowid) && !old(firstRowidInPage))
    {
      var used := Used();
      if |rest| <= pgsz - used {
        n := |rest|;
      } else {
        n := PoslistPrefix(rest, pgsz - used);
      }
      Stream(rest[..n]);
      used := Used();
      if used >= pgsz {
        Flush();
      }
    }

    /** Stream a position list as a bulk load does: in one go if it fits, else in sections of whole
        varints, turning the page whenever it is full. */
    method AppendPoslistBulk(data: bytes)
      requires Valid() && data != [] && content.docs != [] && LastBuf(content.docs) != [] && Size() + 9 < 0x1_0000
      modifies this
      ensures Valid() && content.docs == GrowLast(old(content.docs), data, false)
      ensures firstRowidInDoclist == old(firstRowidInDoclist) && Size() <= pgsz
      ensures firstRowidInPage || (prevRowid == old(prevRowid) && !old(firstRowidInPage))
    {
      var used := Used();
      if used + |data| <= pgsz {
        Stream(data);
        return;
      }
      var iPos := 0;
      ghost var docs := content.docs;
      GrowNothing(docs);
      while iPos < |data|
        invariant iPos <= |data| && Valid() && content.docs == GrowLast(docs, data[..iPos], false)
        invariant firstRowidInDoclist == old(firstRowidInDoclist) && Size() + 9 < 0x1_0000
        invariant (iPos > 0 ==> Size() < pgsz)
        invariant firstRowidInPage || (prevRowid == old(prevRowid) && !old(firstRowidInPage))
      {
        GrownBuf(docs, data[..iPos]);
        var n := StreamSection(data[iPos..]);
        GrowPieces(docs, data, iPos, n);
        iPos := iPos + n;
      }
      assert data[..iPos] == data;
    }

    // Whole varints until the page is full, and then a new page.
    method StreamFull(rest: bytes, used: nat) returns (left: bytes)
      requires Valid() && Varint.Whole(rest) && content.docs != [] && LastBuf(content.docs) != []
      requires Size() <= used && used + |rest| >= pgsz
      modifies this
      ensures Valid() && Varint.Whole(left) && (|left| < |rest| || (left == rest && used >= pgsz))
      ensures content.docs != [] && LastBuf(content.docs) != []
      ensures GrowLast(content.docs, left, false) == GrowLast(old(content.docs), rest, false)
      ensures firstRowidInDoclist == old(firstRowidInDoclist) && firstRowidInPage && body == []
    {
      var n := VarintsUntil(rest, pgsz - used);
      left := rest[n..];
      if n > 0 {
        GrowParts(content.docs, rest[..n], left);
        assert rest[..n] + left == rest;
        Stream(rest[..n]);
      }
      Flush();
    }

    /** Stream the content of a position list as a merge does: whole varints until the page is full, and
        the page is turned even if nothing more goes on it. */
    method AppendPoslistMerge(data: bytes)
      requires Valid() && Varint.Whole(data) && content.docs != [] && LastBuf(content.docs) != []
      modifies this
      ensures Valid() && content.docs == GrowLast(old(content.docs), data, false)
      ensures firstRowidInDoclist == old(firstRowidInDoclist) && Size() < pgsz
      ensures firstRowidInPage || (prevRowid == old(prevRowid) && !old(firstRowidInPage))
    {
      ghost var docs := GrowLast(content.docs, data, false);
      var rest := data;
      var used := Used();
      while used + |rest| >= pgsz
        invariant Valid() && Varint.Whole(rest) && content.docs != [] && LastBuf(content.docs) != []
        invariant GrowLast(content.docs, rest, false) == docs
        invariant firstRowidInDoclist == old(firstRowidInDoclist)
        invariant firstRowidInPage || (prevRowid == old(prevRowid) && !old(firstRowidInPage))
        invariant used >= Size() && (body == [] ==> used == 4)
        decreases |rest|, Size()
      {
        rest := StreamFull(rest, used);
        used := Used();
      }
      if rest != [] {
        Stream(rest);
      } else {
        GrowNothing(content.docs);
      }
    }

    /** A posting's position list. Merging writes its size without looking at the page. */
    method AppendPoslist(p: Posting)
      requires Valid() && PostingOk(p) && content.docs != [] && LastBuf(content.docs) != [] && Size() + 9 < 0x1_0000
      requires mergeMode ==> Size() <= pgsz + 8
      modifies this
      ensures Valid() && content.docs == GrowLast(old(content.docs), PoslistBytes(p), false)
      ensures firstRowidInDoclist == old(firstRowidInDoclist) && Size() <= pgsz + 17
      ensures firstRowidInPage || (prevRowid == old(prevRowid) && !old(firstRowidInPage))
    {
      var pl := WritePoslist(p);
      if mergeMode {
        var size, rest := SplitPoslist(pl, p);
        MergePoslist(size, rest);
      } else {
        AppendPoslistBulk(pl);
      }
    }

    // The size on its own, and then the content.
    method MergePoslist(size: bytes, rest: bytes)
      requires Valid() && 0 < |size| <= 9 && Varint.Whole(rest)
      requires content.docs != [] && LastBuf(content.docs) != [] && Size() <= pgsz + 8
      modifies this
      ensures Valid() && content.docs == GrowLast(old(content.docs), size + rest, false)
      ensures firstRowidInDoclist == old(firstRowidInDoclist) && Size() <= pgsz + 17
      ensures firstRowidInPage || (prevRowid == old(prevRowid) && !old(firstRowidInPage))
    {
      ghost var docs := content.docs;
      GrowParts(docs, size, rest);
      Stream(size);
      if rest != [] {
        AppendPoslistMerge(rest);
      }
    }

    /** One entry of the current doclist. */
    method AppendPosting(p: Posting, ghost front: seq<Doc>, ghost key: bytes, ghost xs: seq<Encoded>)
      returns (ghost x: Encoded)
      requires Valid() && InDoclist(content.docs, front, key, xs, []) && Next(p, xs)
      requires (firstRowidInDoclist <==> xs == [])
      requires (firstRowidInDoclist || firstRowidInPage || prevRowid == LastRowid(xs, 0))
      requires Size() + 18 < 0x1_0000
      modifies this
      ensures Valid() && InDoclist(content.docs, front, key, xs + [x], []) && x.post == Normed(p)
      ensures !firstRowidInDoclist && (firstRowidInPage || prevRowid == p.rowid) && Size() <= pgsz + 17
    {
      StartedBuf(content.docs, front, key, xs);
      ghost var docs := content.docs;
      ghost var abs, mark := AppendRowid(p.rowid);
      x := EntryFor(p, abs, LastRowid(xs, 0));
      RowidWritten(docs, front, key, xs, p, abs, mark);
      docs := content.docs;
      AppendPoslist(p);
      DataWritten(docs, front, key, xs + [x], PoslistBytes(p), []);
    }

    // The record of a term, on the page as it is.
    method PutTerm(key: bytes, record: bytes, ghost now: Pages)
      modifies this
      ensures Page()
           == Draft(old(body) + record, old(termOffsets) + [4 + |old(body)|], old(firstRowidOff), Some(key), false)
      ensures Finished() == Shelf(old(leaves), old(pgno), old(ix).Note(key))
      ensures content == now && firstRowidInDoclist && prevRowid == 0
    {
      termOffsets := termOffsets + [4 + |body|];
      ix := ix.Note(key);
      body := body + record;
      prevTermKey := Some(key);
      firstRowidInPage, firstRowidInDoclist, prevRowid := false, true, 0;
      content := now;
    }

    // A new page for a term if this one is nearly full.
    method MakeRoomFor(key: bytes)
      requires Valid()
      modifies this
      ensures Valid() && content.docs == old(content.docs) && (4 < Size() ==> Size() + |key| + 2 < pgsz)
    {
      var used := Used();
      if used + |key| + 2 >= pgsz && body != [] {
        Flush();
      }
    }

    method AddRecord(key: bytes)
      requires Valid() && KeyOk(key) && Size() + |key| + 18 < 0x1_0000
      modifies this
      ensures Valid() && content.docs == old(content.docs) + [Doc(key, NOTHING)]
      ensures firstRowidInDoclist && Size() <= old(Size()) + |key| + 18
    {
      var record := TermRecord(prevTermKey, key);
      ghost var now := WithTerm(content, key);
      RecordLength(prevTermKey, key);
      TermAdded(Page(), Finished(), content, key, record);
      PutTerm(key, record, now);
    }

    /** Start a term, on a new page if this one is nearly full. */
    method BeginTerm(key: bytes)
      requires Valid() && KeyOk(key) && pgsz + |key| + 40 <= 0x1_0000
      modifies this
      ensures Valid() && content.docs == old(content.docs) + [Doc(key, NOTHING)]
      ensures firstRowidInDoclist && Size() <= pgsz + |key| + 18
    {
      MakeRoomFor(key);
      AddRecord(key);
    }

    /** A term and its postings. */
    method AddKey(key: bytes, postings: seq<Posting>)
      requires Valid() && KeyOk(key) && pgsz + |key| + 40 <= 0x1_0000 && PostingsOk(postings)
      modifies this
      ensures Valid() && |content.docs| == |old(content.docs)| + 1
      ensures content.docs[..|old(content.docs)|] == old(content.docs)
      ensures var d := content.docs[|old(content.docs)|]; d.key == key && DecodeFlat(d.flat) == Ok(NormedAll(postings))
    {
      ghost var front, xs := content.docs, [];
      BeginTerm(key);
      DoclistBegun(content.docs, front, key);
      for i := 0 to |postings|
        invariant Valid() && InDoclist(content.docs, front, key, xs, []) && Posts(xs) == NormedAll(postings[..i])
        invariant (firstRowidInDoclist <==> xs == []) && |xs| == i && Size() + 18 < 0x1_0000
        invariant firstRowidInDoclist || firstRowidInPage || prevRowid == LastRowid(xs, 0)
      {
        NextPosting(postings, i, xs);
        ghost var x := AppendPosting(postings[i], front, key, xs);
        JoinedSnoc(xs, x);
        NormedSnoc(postings, i);
        xs := xs + [x];
      }
      assert postings[..|postings|] == postings;
      Streamed(content.docs[|front|].flat, xs);
    }
  }

  // ----- The current doclist

  /** The last doclist is that of `key` and holds the entries `xs`, except for the bytes `rest`. */
  ghost predicate InDoclist(docs: seq<Doc>, front: seq<Doc>, key: bytes, xs: seq<Encoded>, rest: bytes) {
    && |docs| == |front| + 1 && docs[..|front|] == front && docs[|front|].key == key
    && Streaming(docs[|front|].flat, xs, rest)
  }

  predicate PostingsOk(ps: seq<Posting>) {
    && (forall i :: 0 <= i < |ps| ==> PostingOk(ps[i]))
    && (forall i :: 0 < i < |ps| ==> ps[i - 1].rowid < ps[i].rowid)
  }

  function NormedAll(ps: seq<Posting>): (r: seq<Posting>)
    ensures |r| == |ps|
  {
    seq(|ps|, i requires 0 <= i < |ps| => Normed(ps[i]))
  }

  lemma {:induction false} NormedSnoc(ps: seq<Posting>, i: nat)
    requires i < |ps|
    ensures NormedAll(ps[..i + 1]) == NormedAll(ps[..i]) + [Normed(ps[i])]
  {
  }

  // `p` can come after these entries.
  ghost predicate Next(p: Posting, xs: seq<Encoded>) {
    PostingOk(p) && (xs != [] ==> 0 <= LastRowid(xs, 0) < p.rowid)
  }

  lemma {:induction false} LastPost(xs: seq<Encoded>)
    requires xs != []
    ensures Posts(xs)[|xs| - 1] == xs[|xs| - 1].post
    decreases xs
  {
    if |xs| > 1 {
      LastPost(xs[1..]);
    }
  }

  lemma {:induction false} NextPosting(ps: seq<Posting>, i: nat, xs: seq<Encoded>)
    requires PostingsOk(ps) && i < |ps| && |xs| == i && Posts(xs) == NormedAll(ps[..i])
    ensures Next(ps[i], xs)
  {
    if xs != [] {
      LastPost(xs);
      assert NormedAll(ps[..i])[i - 1] == Normed(ps[i - 1]);
    }
  }

  lemma {:induction false} DoclistBegun(docs: seq<Doc>, front: seq<Doc>, key: bytes)
    requires docs == front + [Doc(key, NOTHING)]
    ensures InDoclist(docs, front, key, [], [])
  {
    StreamsNothing();
  }

  lemma {:induction false} StartedBuf(docs: seq<Doc>, front: seq<Doc>, key: bytes, xs: seq<Encoded>)
    requires InDoclist(docs, front, key, xs, [])
    ensures docs != [] && (LastBuf(docs) == [] <==> xs == [])
  {
    var f := docs[|front|].flat;
    assert f.buf + [] == f.buf;
    if xs != [] {
      ChainNonEmpty(ReadEntry, NextRowid, xs, 0);
      assert xs[0] in xs;
    }
  }

  lemma {:induction false} RowidWritten(docs: seq<Doc>, front: seq<Doc>, key: bytes, xs: seq<Encoded>, p: Posting,
                                        abs: bool, mark: bool)
    requires InDoclist(docs, front, key, xs, []) && Next(p, xs) && docs != [] && (abs <==> mark || LastBuf(docs) == [])
    requires FieldOk(p, abs, LastRowid(xs, 0))
    ensures InDoclist(GrowLast(docs, Varint.Encode(RowidField(p, abs, LastRowid(xs, 0))), mark), front, key,
                      xs + [EntryFor(p, abs, LastRowid(xs, 0))], PoslistBytes(p))
    ensures LastBuf(GrowLast(docs, Varint.Encode(RowidField(p, abs, LastRowid(xs, 0))), mark)) != []
  {
    var before := LastRowid(xs, 0);
    EntryStandsFor(p, abs, before);
    StreamEntry(docs[|front|].flat, xs, EntryFor(p, abs, before), Varint.Encode(RowidField(p, abs, before)),
                PoslistBytes(p), mark);
  }

  lemma {:induction false} DataWritten(docs: seq<Doc>, front: seq<Doc>, key: bytes, xs: seq<Encoded>, b: bytes,
                                       rest: bytes)
    requires InDoclist(docs, front, key, xs, b) && rest == []
    ensures InDoclist(GrowLast(docs, b, false), front, key, xs, rest)
  {
    assert b + rest == b;
    StreamMore(docs[|front|].flat, xs, b, rest);
  }

  lemma {:induction false} SizeFirst(p: Posting)
    requires PostingOk(p)
    ensures var pl := PoslistBytes(p);
            && Varint.Decode(pl).Decoded? && 0 < Varint.Decode(pl).length <= 9
            && Varint.Whole(pl[Varint.Decode(pl).length..])
  {
    SizeFieldIs(p);
    var e, content := Varint.Encode(SizeField(p)), Poslist.Content(p.cols, 0);
    Varint.RoundTrip(SizeField(p), content);
    TailOf(e, content);
    Varint.EncodeLength(SizeField(p));
    ContentWhole(p.cols);
  }

  method SplitPoslist(pl: bytes, ghost p: Posting) returns (size: bytes, content: bytes)
    requires PostingOk(p) && pl == PoslistBytes(p)
    ensures size + content == pl && 0 < |size| <= 9 && Varint.Whole(content)
  {
    SizeFirst(p);
    size, content := SplitFirst(pl);
  }

  // The first varint, and what follows.
  method SplitFirst(b: bytes) returns (first: bytes, rest: bytes)
    requires !Varint.Decode(b).Truncated? && Varint.Whole(b[Varint.Decode(b).length..])
    ensures first + rest == b && 0 < |first| <= 9 && Varint.Whole(rest)
  {
    var n := Varint.Decode(b).length;
    first, rest := b[..n], b[n..];
  }

  lemma {:induction false} RecordLength(prev: Option<bytes>, key: bytes)
    requires KeyOk(key)
    ensures |TermRecord(prev, key)| <= 18 + |key|
  {
    Varint.EncodeLength(|key|);
    if prev.Some? {
      Varint.EncodeLength(Common(key, prev.value));
      Varint.EncodeLength(|key| - Common(key, prev.value));
    }
  }

  lemma {:induction false} GrowParts(docs: seq<Doc>, a: bytes, b: bytes)
    requires docs != [] && LastBuf(docs) != []
    ensures LastBuf(GrowLast(docs, a, false)) != []
    ensures GrowLast(GrowLast(docs, a, false), b, false) == GrowLast(docs, a + b, false)
    ensures b == [] ==> GrowLast(docs, a, false) == GrowLast(docs, a + b, false)
  {
    GrownBuf(docs, a);
    GrowTwice(docs, a, b);
    if b == [] {
      assert a + b == a;
    }
  }

  lemma {:induction false} GrownBuf(docs: seq<Doc>, b: bytes)
    requires docs != [] && LastBuf(docs) != []
    ensures GrowLast(docs, b, false) != [] && LastBuf(GrowLast(docs, b, false)) != []
  {
  }

  // A further piece of the same data.
  lemma {:induction false} GrowPieces(docs: seq<Doc>, data: bytes, k: nat, n: nat)
    requires docs != [] && k + n <= |data|
    ensures var grown := GrowLast(docs, data[..k], false);
            && grown != [] && GrowLast(grown, data[k..][..n], false) == GrowLast(docs, data[..k + n], false)
            && (n == 0 ==> data[..k + n] == data[..k]) && data[k..][..|data| - k] == data[k..]
  {
    GrowTwice(docs, data[..k], data[k..][..n]);
    assert data[..k] + data[k..][..n] == data[..k + n];
  }

  lemma {:induction false} EmptyBody(l: Leaf)
    requires LeafOk(l) && Body(l) == []
    ensures l.parts == [] && TermOffsets(l) == []
  {
    if l.parts != [] {
      PartsNonEmpty(l.parts);
      assert false;
    }
  }

  lemma {:induction false} PartsNonEmpty(parts: seq<Part>)
    requires KeysOk(parts) && parts != []
    ensures Cat(Chunks(parts, None)) != []
  {
  }

  lemma {:induction false} PagesMore(bs: seq<bytes>, ls: seq<Leaf>, b: bytes, l: Leaf)
    requires PagesOf(bs, ls) && IsPage(b, l)
    ensures PagesOf(bs + [b], ls + [l])
  {
    forall i | 0 <= i < |ls + [l]|
      ensures IsPage((bs + [b])[i], (ls + [l])[i])
    {
      assert i < |ls| ==> IsPage(bs[i], ls[i]);
    }
  }
}
