/** Prefix queries answered from the pages. The postings of all terms with the prefix are merged, and of those of
    one document the first is kept: its term is the least one with the prefix. That is enough to tell whether the
    document has such a term, but not in which columns. */
module SegPrefix {
  import opened Seqs
  import opened Bytes
  import opened Poslist
  import opened SegLeaf
  import opened SegRead
  import opened Segment
  import opened Postings
  import opened SegMerge
  import opened SegDocs
  import opened SegLive
  import opened SegLevels
  import opened SegStore
  import opened SegScan
  import opened Sorting
  import opened SegQuery
  import opened Phrases
  import opened SegMatch

  // ----- All terms with a prefix in one segment

  // The postings of these terms, term after term.
  function PrefixRows(seg: Seg, want: bytes): seq<Posting> {
    if seg == [] then [] else (if want <= seg[0].key then seg[0].postings else []) + PrefixRows(seg[1..], want)
  }

  function FoundThen(ps: seq<Posting>, rest: SegDecode): SegDecode {
    match rest
    case Bail => Bail
    case Found(more) => Found(ps + more)
  }

  // From term `ti` of leaf `li` on.
  function PrefixFrom(bs: seq<bytes>, views: seq<View>, li: nat, ti: nat, want: bytes): SegDecode
    requires |bs| == |views| && (li < |bs| ==> ti <= |views[li].terms|)
    decreases |bs| - li, if li < |bs| then |views[li].terms| - ti else 0
  {
    if li >= |bs| then Found([])
    else if ti == |views[li].terms| then PrefixFrom(bs, views, li + 1, 0, want)
    else if !(want <= views[li].terms[ti].key) then PrefixFrom(bs, views, li, ti + 1, want)
    else
      match Gather(bs, views, li, ti)
      case Corrupt => Bail
      case Ok(runs) =>
        match DecodeStrict(runs)
        case Corrupt => Bail
        case Ok(ps) => FoundThen(ps, PrefixFrom(bs, views, li, ti + 1, want))
  }

  /** The postings of all terms with a prefix in a segment, unless one of them is a delete marker. */
  function DecodePrefixStrict(bs: seq<bytes>, want: bytes): SegDecode {
    match ParseAll(bs)
    case Corrupt => Bail
    case Ok(views) => PrefixFrom(bs, views, 0, 0, want)
  }

  lemma {:induction false} LiveCat(a: seq<Posting>, b: seq<Posting>)
    ensures AllLive(a + b) <==> AllLive(a) && AllLive(b)
  {
    var all := a + b;
    assert forall i :: 0 <= i < |a| ==> all[i] == a[i];
    assert forall i :: 0 <= i < |b| ==> all[|a| + i] == b[i];
  }

  lemma {:induction false} StrictRuns(runs: seq<Run>, ps: seq<Posting>)
    requires DecodeRuns(runs) == Ok(ps)
    ensures DecodeStrict(runs) == if AllLive(ps) then Ok(ps) else Corrupt
  {
    var f := ExtendAll(NOTHING, runs);
    StrictEntries(ReadEntry, ReadStrict, NextRowid, f.buf, 0, f.marks, 0);
  }

  // The rows of one term, and those of the others.
  lemma {:induction false} RowsThen(key: bytes, ps: seq<Posting>, rest: Seg, want: bytes)
    ensures PrefixRows([TermPostings(key, ps)] + rest, want)
         == (if want <= key then ps else []) + PrefixRows(rest, want)
    ensures LiveOrBail(PrefixRows([TermPostings(key, ps)] + rest, want))
         == if !(want <= key) then LiveOrBail(PrefixRows(rest, want))
            else if AllLive(ps) then FoundThen(ps, LiveOrBail(PrefixRows(rest, want))) else Bail
  {
    assert ([TermPostings(key, ps)] + rest)[1..] == rest;
    LiveCat(ps, PrefixRows(rest, want));
    assert [] + PrefixRows(rest, want) == PrefixRows(rest, want);
  }

  lemma {:induction false} PrefixStep(bs: seq<bytes>, views: seq<View>, li: nat, ti: nat, want: bytes, runs: seq<Run>,
                                      ps: seq<Posting>, rest: SegDecode)
    requires |bs| == |views| && li < |bs| && ti < |views[li].terms|
    requires Gather(bs, views, li, ti) == Ok(runs) && DecodeRuns(runs) == Ok(ps)
    requires PrefixFrom(bs, views, li, ti + 1, want) == rest
    ensures PrefixFrom(bs, views, li, ti, want)
         == if !(want <= views[li].terms[ti].key) then rest else if AllLive(ps) then FoundThen(ps, rest) else Bail
  {
    StrictRuns(runs, ps);
  }

  lemma {:induction false} PrefixReadsFrom(bs: seq<bytes>, views: seq<View>, li: nat, ti: nat, want: bytes)
    requires |bs| == |views| && (li < |bs| ==> ti <= |views[li].terms|) && TermsFrom(bs, views, li, ti).Ok?
    ensures PrefixFrom(bs, views, li, ti, want) == LiveOrBail(PrefixRows(TermsFrom(bs, views, li, ti).value, want))
    decreases |bs| - li, if li < |bs| then |views[li].terms| - ti else 0
  {
    if li < |bs| {
      if ti == |views[li].terms| {
        PrefixReadsFrom(bs, views, li + 1, 0, want);
      } else {
        PrefixReadsFrom(bs, views, li, ti + 1, want);
        var runs := Gather(bs, views, li, ti).value;
        var ps, rest := DecodeRuns(runs).value, TermsFrom(bs, views, li, ti + 1).value;
        RowsThen(views[li].terms[ti].key, ps, rest, want);
        PrefixStep(bs, views, li, ti, want, runs, ps, LiveOrBail(PrefixRows(rest, want)));
      }
    }
  }

  lemma {:induction false} PrefixReads(bs: seq<bytes>, want: bytes)
    requires ReadSegment(bs).Ok?
    ensures DecodePrefixStrict(bs, want) == LiveOrBail(PrefixRows(ReadSegment(bs).value, want))
  {
    PrefixReadsFrom(bs, ParseAll(bs).value, 0, 0, want);
  }

  // ----- Merging segments

  type Decode = seq<bytes> -> SegDecode

  function Decoded(decode: Decode, bs: seq<bytes>): seq<Posting> {
    var d := decode(bs);
    if d.Found? then d.postings else []
  }

  function DecodedAll(segments: seq<seq<bytes>>, decode: Decode): (r: seq<seq<Posting>>)
    ensures |r| == |segments|
  {
    seq(|segments|, i requires 0 <= i < |segments| => Decoded(decode, segments[i]))
  }

  ghost predicate Shared(lists: seq<seq<Posting>>) {
    exists i, j, r :: 0 <= i < |lists| && 0 <= j < |lists| && i != j && HasRowid(lists[i], r) && HasRowid(lists[j], r)
  }

  /** A segment cannot be decoded, or a document is in two segments. */
  ghost predicate Stuck(segments: seq<seq<bytes>>, decode: Decode) {
    (exists si :: 0 <= si < |segments| && decode(segments[si]).Bail?) || Shared(DecodedAll(segments, decode))
  }

  ghost predicate SeenLists(seen: seq<Seen>, lists: seq<seq<Posting>>, n: nat) {
    forall x :: x in seen <==> x.seg < n && x.seg < |lists| && HasRowid(lists[x.seg], x.rowid)
  }

  lemma {:induction false} SeenNext(seen: seq<Seen>, lists: seq<seq<Posting>>, n: nat)
    requires n < |lists| && SeenLists(seen, lists, n)
    ensures SeenLists(seen + Tagged(lists[n], n), lists, n + 1)
  {
  }

  lemma {:induction false} SeenShared(seen: seq<Seen>, lists: seq<seq<Posting>>)
    requires SeenLists(seen, lists, |lists|)
    ensures Straddles(seen) <==> Shared(lists)
  {
    if Straddles(seen) {
      var a, b :| a in seen && b in seen && a.rowid == b.rowid && a.seg != b.seg;
      assert HasRowid(lists[a.seg], a.rowid) && HasRowid(lists[b.seg], a.rowid);
    }
    if Shared(lists) {
      var i, j, r :| 0 <= i < |lists| && 0 <= j < |lists| && i != j && HasRowid(lists[i], r) && HasRowid(lists[j], r);
      assert Seen(r, i).seg == i && Seen(r, j).seg == j;
      assert Seen(r, i) in seen && Seen(r, j) in seen;
    }
  }

  ghost predicate NoneBail(segments: seq<seq<bytes>>, decode: Decode, n: nat) {
    forall k :: 0 <= k < n && k < |segments| ==> decode(segments[k]).Found?
  }

  // What is decoded from every segment, and where.
  method DecodeEach(segments: seq<seq<bytes>>, decode: Decode) returns (bail: bool, all: seq<Posting>, seen: seq<Seen>)
    ensures bail <==> !NoneBail(segments, decode, |segments|)
    ensures !bail ==> all == Joined(DecodedAll(segments, decode), |segments|)
    ensures !bail ==> SeenLists(seen, DecodedAll(segments, decode), |segments|)
  {
    all, seen := [], [];
    ghost var lists := DecodedAll(segments, decode);
    for si := 0 to |segments|
      invariant all == Joined(lists, si) && SeenLists(seen, lists, si) && NoneBail(segments, decode, si)
    {
      var d := decode(segments[si]);
      if d.Bail? {
        return true, all, seen;
      }
      SeenNext(seen, lists, si);
      seen := seen + Tagged(d.postings, si);
      all := all + d.postings;
    }
    bail := false;
  }

  /** Merge what is decoded from every segment: sorted by rowid, the first posting of every document. */
  method MergeSegments(segments: seq<seq<bytes>>, decode: Decode) returns (r: Option<seq<Posting>>)
    ensures r.None? <==> Stuck(segments, decode)
    ensures r.Some? ==> r.value == Dedup(Sort(Joined(DecodedAll(segments, decode), |segments|), RowidLe))
  {
    var bail, all, seen := DecodeEach(segments, decode);
    if bail {
      return None;
    }
    SeenShared(seen, DecodedAll(segments, decode));
    var straddles := FindStraddling(seen);
    if straddles {
      return None;
    }
    r := Some(Dedup(Sort(all, RowidLe)));
  }

  // ----- The first posting of every document

  lemma {:induction false} AtCat(a: seq<Posting>, b: seq<Posting>, r: int)
    ensures At(a + b, r) == if At(a, r).Some? then At(a, r) else At(b, r)
  {
    if a == [] {
      assert a + b == b;
    } else {
      AtCat(a[1..], b, r);
      assert (a + b)[1..] == a[1..] + b && (a + b)[0] == a[0];
    }
  }

  lemma {:induction false} AtHas(ps: seq<Posting>, r: int)
    ensures At(ps, r).Some? <==> HasRowid(ps, r)
  {
    if ps != [] {
      AtHas(ps[1..], r);
      assert forall i :: 0 <= i < |ps| ==> ps[i] == if i == 0 then ps[0] else ps[1..][i - 1];
    }
  }

  lemma {:induction false} InsertAt(s: seq<Posting>, x: Posting, r: int)
    requires Sorted(s, RowidLe)
    ensures At(Insert(s, x, RowidLe), r)
         == if At(s, r).Some? then At(s, r) else if x.rowid == r then Some(x) else None
    decreases s
  {
    if s != [] {
      var t := s[1..];
      assert forall i :: 0 <= i < |t| ==> t[i] == s[i + 1];
      if RowidLe(s[0], x) {
        InsertAt(t, x, r);
        assert ([s[0]] + Insert(t, x, RowidLe))[1..] == Insert(t, x, RowidLe);
      } else {
        assert ([x] + s)[1..] == s;
        AtHas(s, x.rowid);
        assert forall i :: 0 <= i < |s| ==> i == 0 || RowidLe(s[0], s[i]);
      }
    }
  }

  lemma {:induction false} AtSnoc(s: seq<Posting>, x: Posting, r: int)
    ensures At(s + [x], r) == if At(s, r).Some? then At(s, r) else if x.rowid == r then Some(x) else None
  {
    AtCat(s, [x], r);
    assert [x][1..] == [];
  }

  lemma {:induction false} SortSnoc(s: seq<Posting>, x: Posting)
    ensures Sort(s + [x], RowidLe) == Insert(Sort(s, RowidLe), x, RowidLe) && Sorted(Sort(s, RowidLe), RowidLe)
  {
    assert (s + [x])[..|s|] == s;
    SortSorted(s, RowidLe);
  }

  /** Sorting is stable: the first posting of a document stays the first. */
  lemma {:induction false} SortAt(s: seq<Posting>, r: int)
    ensures At(Sort(s, RowidLe), r) == At(s, r)
    decreases s
  {
    if s != [] {
      var front, x := s[..|s| - 1], s[|s| - 1];
      assert s == front + [x];
      SortAt(front, r);
      SortSnoc(front, x);
      InsertAt(Sort(front, RowidLe), x, r);
      AtSnoc(front, x, r);
    }
  }

  lemma {:induction false} DedupAt(ps: seq<Posting>, r: int)
    ensures At(Dedup(ps), r) == At(ps, r)
    decreases |ps|
  {
    if |ps| >= 2 {
      if ps[0].rowid == ps[1].rowid {
        var less := [ps[0]] + ps[2..];
        DedupAt(less, r);
        assert less[1..] == ps[2..] && ps[1..][1..] == ps[2..];
      } else {
        DedupAt(ps[1..], r);
        assert ([ps[0]] + Dedup(ps[1..]))[1..] == Dedup(ps[1..]);
      }
    }
  }

  lemma {:induction false} DedupAscends(ps: seq<Posting>)
    requires Sorted(ps, RowidLe)
    ensures Ascend(Dedup(ps)) && (ps != [] ==> Dedup(ps) != [] && Dedup(ps)[0] == ps[0])
    decreases |ps|
  {
    if |ps| >= 2 {
      assert RowidLe(ps[0], ps[1]);
      if ps[0].rowid == ps[1].rowid {
        var less := [ps[0]] + ps[2..];
        assert forall i :: 0 <= i < |less| ==> less[i] == if i == 0 then ps[0] else ps[i + 1];
        DedupAscends(less);
      } else {
        assert forall i :: 0 <= i < |ps[1..]| ==> ps[1..][i] == ps[i + 1];
        DedupAscends(ps[1..]);
        var rest := Dedup(ps[1..]);
        forall i | 0 <= i < |rest|
          ensures ps[0].rowid < rest[i].rowid
        {
          assert i == 0 || rest[0].rowid < rest[i].rowid;
        }
      }
    }
  }

  lemma {:induction false} MergedFirst(all: seq<Posting>)
    ensures Ascend(Dedup(Sort(all, RowidLe)))
    ensures forall r :: At(Dedup(Sort(all, RowidLe)), r) == At(all, r)
  {
    SortSorted(all, RowidLe);
    DedupAscends(Sort(all, RowidLe));
    forall r
      ensures At(Dedup(Sort(all, RowidLe)), r) == At(all, r)
    {
      DedupAt(Sort(all, RowidLe), r);
      SortAt(all, r);
    }
  }

  // ----- The least term with the prefix

  ghost predicate Prefixed(doc: Document, want: bytes) {
    exists key :: want <= key && Has(doc, key)
  }

  /** The least term of a document with the prefix. */
  ghost predicate LeastTerm(doc: Document, want: bytes, key: bytes) {
    want <= key && Has(doc, key) && forall k :: want <= k && Has(doc, k) ==> LexCmp(key, k) != Greater
  }

  ghost predicate InColumn(doc: Document, key: bytes, c: nat) {
    c < |doc| && Positions(doc[c], key, |doc[c]|) != []
  }

  lemma {:induction false} PrefixIn(seg: Seg, want: bytes, r: int)
    ensures HasRowid(PrefixRows(seg, want), r)
       <==> exists i :: 0 <= i < |seg| && want <= seg[i].key && HasRowid(seg[i].postings, r)
  {
    if seg != [] {
      var first, rest := if want <= seg[0].key then seg[0].postings else [], PrefixRows(seg[1..], want);
      PrefixIn(seg[1..], want, r);
      HasCat(first, rest, r);
      if i :| 0 <= i < |seg| && want <= seg[i].key && HasRowid(seg[i].postings, r) {
        assert i > 0 ==> seg[1..][i - 1] == seg[i];
      }
      if i :| 0 <= i < |seg[1..]| && want <= seg[1..][i].key && HasRowid(seg[1..][i].postings, r) {
        assert seg[i + 1] == seg[1..][i];
      }
    }
  }

  lemma {:induction false} HasCat(a: seq<Posting>, b: seq<Posting>, r: int)
    ensures HasRowid(a + b, r) <==> HasRowid(a, r) || HasRowid(b, r)
  {
    AtHas(a + b, r);
    AtHas(a, r);
    AtHas(b, r);
    AtCat(a, b, r);
  }

  // The first posting of a document is that of the first term with one.
  lemma {:induction false} FirstTerm(seg: Seg, want: bytes, r: int) returns (i: nat)
    requires At(PrefixRows(seg, want), r).Some?
    ensures i < |seg| && want <= seg[i].key && At(PrefixRows(seg, want), r) == At(seg[i].postings, r)
    ensures forall k :: 0 <= k < i && want <= seg[k].key ==> At(seg[k].postings, r) == None
  {
    var first, rest := if want <= seg[0].key then seg[0].postings else [], PrefixRows(seg[1..], want);
    AtCat(first, rest, r);
    if At(first, r).Some? {
      i := 0;
    } else {
      var j := FirstTerm(seg[1..], want, r);
      i := j + 1;
      assert forall k :: 1 <= k < i ==> seg[k] == seg[1..][k - 1];
    }
  }

  // ----- What the merged postings say about the documents

  function PrefixDecode(want: bytes): Decode {
    (bs: seq<bytes>) => DecodePrefixStrict(bs, want)
  }

  ghost predicate PrefixSetting(segments: seq<seq<bytes>>, want: bytes, order: seq<StructSeg>, ages: seq<StructSeg>,
                                data: Data, docs: Documents) {
    Laid(segments, order, ages, data) && Holds(ages, data, docs) && !Stuck(segments, PrefixDecode(want))
  }

  ghost function PrefixLists(segments: seq<seq<bytes>>, want: bytes): (r: seq<seq<Posting>>)
    ensures |r| == |segments|
  {
    DecodedAll(segments, PrefixDecode(want))
  }

  lemma {:induction false} PrefixServed(segments: seq<seq<bytes>>, want: bytes, si: nat)
    requires !Stuck(segments, PrefixDecode(want)) && si < |segments| && ReadSegment(segments[si]).Ok?
    ensures PrefixLists(segments, want)[si] == PrefixRows(ReadSegment(segments[si]).value, want)
    ensures AllLive(PrefixLists(segments, want)[si])
  {
    PrefixReads(segments[si], want);
    assert PrefixDecode(want)(segments[si]).Found?;
  }

  // The place of a term in a segment.
  lemma {:induction false} TermAt(seg: Seg, key: bytes, r: int) returns (i: nat)
    requires Ordered(seg) && Lookup(seg, key, r).Some?
    ensures i < |seg| && seg[i].key == key && At(seg[i].postings, r) == Lookup(seg, key, r)
  {
    RowsFrom(seg, key, Lookup(seg, key, r).value);
    i :| 0 <= i < |seg| && seg[i].key == key && Lookup(seg, key, r).value in seg[i].postings;
    RowsAre(seg, i);
  }

  // A segment with a posting of a document for a term with the prefix serves one.
  lemma {:induction false} ServesPrefix(segments: seq<seq<bytes>>, want: bytes, si: nat, key: bytes, r: int)
    requires !Stuck(segments, PrefixDecode(want)) && si < |segments| && ReadSegment(segments[si]).Ok?
    requires Ordered(ReadSegment(segments[si]).value) && want <= key
    requires Lookup(ReadSegment(segments[si]).value, key, r).Some?
    ensures HasRowid(PrefixLists(segments, want)[si], r)
  {
    var seg := ReadSegment(segments[si]).value;
    var i := TermAt(seg, key, r);
    AtHas(seg[i].postings, r);
    PrefixServed(segments, want, si);
    PrefixIn(seg, want, r);
  }

  lemma {:induction false} OnlyHere(lists: seq<seq<Posting>>, i: nat, j: nat, r: int)
    requires !Shared(lists) && i < |lists| && j < |lists| && HasRowid(lists[i], r) && HasRowid(lists[j], r)
    ensures i == j
  {
  }

  // The posting of a document for a term with the prefix is not a delete marker.
  lemma {:induction false} PrefixAlive(segments: seq<seq<bytes>>, want: bytes, si: nat, i: nat, p: Posting)
    requires !Stuck(segments, PrefixDecode(want)) && si < |segments| && ReadSegment(segments[si]).Ok?
    requires i < |ReadSegment(segments[si]).value| && want <= ReadSegment(segments[si]).value[i].key
    requires p in ReadSegment(segments[si]).value[i].postings
    ensures !p.del
  {
    var seg := ReadSegment(segments[si]).value;
    PrefixServed(segments, want, si);
    RowsInside(seg, want, i, p);
    var k :| 0 <= k < |PrefixRows(seg, want)| && PrefixRows(seg, want)[k] == p;
  }

  lemma {:induction false} RowsInside(seg: Seg, want: bytes, i: nat, p: Posting)
    requires i < |seg| && want <= seg[i].key && p in seg[i].postings
    ensures p in PrefixRows(seg, want)
  {
    if i > 0 {
      RowsInside(seg[1..], want, i - 1, p);
    }
  }

  lemma {:induction false} PrefixIndexed(segments: seq<seq<bytes>>, want: bytes, order: seq<StructSeg>,
                                         ages: seq<StructSeg>, data: Data, docs: Documents, si: nat, key: bytes,
                                         p: Posting)
    requires PrefixSetting(segments, want, order, ages, data, docs) && si < |segments| && want <= key
    requires ReadSegment(segments[si]).Ok? && Lookup(ReadSegment(segments[si]).value, key, p.rowid) == Some(p)
    ensures Indexed(docs, key, p.rowid) == Some(p.cols)
  {
    var a := SegmentAt(segments, order, ages, data, si);
    var segs, r := ReadAll(ages, data), p.rowid;
    ServesPrefix(segments, want, si, key, r);
    forall b | 0 <= b < |segs| && b != a
      ensures Lookup(segs[b], key, r) == None
    {
      var sj := PlaceOf(segments, order, ages, data, b);
      assert ages[a].segid != ages[b].segid;
      if Lookup(segs[b], key, r).Some? {
        ServesPrefix(segments, want, sj, key, r);
        OnlyHere(PrefixLists(segments, want), si, sj, r);
      }
    }
    NewestOnly(segs, key, r, a, p);
    var i := TermAt(segs[a], key, r);
    PrefixAlive(segments, want, si, i, p);
    GoodEntry(segs[a], key, p);
    assert Live(segs, key, r) == Some(p.cols);
  }

  lemma {:induction false} PrefixFound(segments: seq<seq<bytes>>, want: bytes, order: seq<StructSeg>,
                                       ages: seq<StructSeg>, data: Data, docs: Documents, key: bytes, r: int)
    returns (si: nat)
    requires PrefixSetting(segments, want, order, ages, data, docs) && want <= key && Indexed(docs, key, r).Some?
    ensures si < |segments| && ReadSegment(segments[si]).Ok? && Ordered(ReadSegment(segments[si]).value)
    ensures Lookup(ReadSegment(segments[si]).value, key, r).Some? && HasRowid(PrefixLists(segments, want)[si], r)
  {
    var segs := ReadAll(ages, data);
    assert Live(segs, key, r).Some?;
    NewestFrom(segs, key, r);
    var a :| 0 <= a < |segs| && Lookup(segs[a], key, r) == Newest(segs, key, r);
    si := PlaceOf(segments, order, ages, data, a);
    ServesPrefix(segments, want, si, key, r);
  }

  lemma {:induction false} JoinedAt(lists: seq<seq<Posting>>, n: nat, r: int)
    requires n <= |lists|
    ensures At(Joined(lists, n), r).Some? ==> exists i :: 0 <= i < n && At(lists[i], r) == At(Joined(lists, n), r)
    ensures (exists i :: 0 <= i < n && HasRowid(lists[i], r)) ==> At(Joined(lists, n), r).Some?
  {
    if n > 0 {
      JoinedAt(lists, n - 1, r);
      AtCat(Joined(lists, n - 1), lists[n - 1], r);
      AtHas(lists[n - 1], r);
    }
  }

  ghost function AllPrefixed(segments: seq<seq<bytes>>, want: bytes): seq<Posting> {
    Joined(PrefixLists(segments, want), |segments|)
  }

  // A document with a posting has a term with the prefix, and the first posting is that of the least.
  lemma {:induction false} KeptIsLeast(segments: seq<seq<bytes>>, want: bytes, order: seq<StructSeg>,
                                       ages: seq<StructSeg>, data: Data, docs: Documents, p: Posting)
    returns (key: bytes)
    requires PrefixSetting(segments, want, order, ages, data, docs)
    requires At(AllPrefixed(segments, want), p.rowid) == Some(p)
    ensures p.rowid in docs && LeastTerm(docs[p.rowid], want, key) && Indexed(docs, key, p.rowid) == Some(p.cols)
  {
    var lists, r := PrefixLists(segments, want), p.rowid;
    JoinedAt(lists, |segments|, r);
    var si :| 0 <= si < |segments| && At(lists[si], r) == Some(p);
    var a := SegmentAt(segments, order, ages, data, si);
    var seg := ReadSegment(segments[si]).value;
    PrefixServed(segments, want, si);
    var i := FirstTerm(seg, want, r);
    key := seg[i].key;
    RowsAre(seg, i);
    PrefixIndexed(segments, want, order, ages, data, docs, si, key, p);
    forall k | want <= k && Has(docs[r], k)
      ensures LexCmp(key, k) != Greater
    {
      AtHas(lists[si], r);
      LeastOfAll(segments, want, order, ages, data, docs, si, i, k, r);
    }
  }

  lemma {:induction false} LeastOfAll(segments: seq<seq<bytes>>, want: bytes, order: seq<StructSeg>,
                                      ages: seq<StructSeg>, data: Data, docs: Documents, si: nat, i: nat, k: bytes,
                                      r: int)
    requires PrefixSetting(segments, want, order, ages, data, docs) && si < |segments| && ReadSegment(segments[si]).Ok?
    requires HasRowid(PrefixLists(segments, want)[si], r) && i < |ReadSegment(segments[si]).value|
    requires var seg := ReadSegment(segments[si]).value;
             forall m :: 0 <= m < i && want <= seg[m].key ==> At(seg[m].postings, r) == None
    requires want <= k && Indexed(docs, k, r).Some?
    ensures LexCmp(ReadSegment(segments[si]).value[i].key, k) != Greater
  {
    var sj := PrefixFound(segments, want, order, ages, data, docs, k, r);
    OnlyHere(PrefixLists(segments, want), si, sj, r);
    var seg := ReadSegment(segments[si]).value;
    var m := TermAt(seg, k, r);
    OrderedKeys(seg);
    assert KeysOf(seg)[i] == seg[i].key && KeysOf(seg)[m] == k;
    if m == i {
      LexEqual(k, k);
    }
  }

  lemma {:induction false} PrefixedFound(segments: seq<seq<bytes>>, want: bytes, order: seq<StructSeg>,
                                         ages: seq<StructSeg>, data: Data, docs: Documents, r: int)
    requires PrefixSetting(segments, want, order, ages, data, docs) && r in docs && Prefixed(docs[r], want)
    ensures At(AllPrefixed(segments, want), r).Some?
  {
    var key :| want <= key && Has(docs[r], key);
    var si := PrefixFound(segments, want, order, ages, data, docs, key, r);
    JoinedAt(PrefixLists(segments, want), |segments|, r);
  }

  // ----- The answers

  ghost predicate ShowsLeast(p: Posting, docs: Documents, want: bytes) {
    p.rowid in docs && exists key :: LeastTerm(docs[p.rowid], want, key) && Indexed(docs, key, p.rowid) == Some(p.cols)
  }

  /** One posting for every document with a term with the prefix, that of the least. */
  ghost predicate PrefixList(ps: seq<Posting>, docs: Documents, want: bytes) {
    && Ascend(ps) && (forall i :: 0 <= i < |ps| ==> ShowsLeast(ps[i], docs, want))
    && forall r :: HasRowid(ps, r) <==> r in docs && Prefixed(docs[r], want)
  }

  lemma {:induction false} MergedMeans(segments: seq<seq<bytes>>, want: bytes, order: seq<StructSeg>,
                                       ages: seq<StructSeg>, data: Data, docs: Documents, ps: seq<Posting>)
    requires PrefixSetting(segments, want, order, ages, data, docs) && Ascend(ps)
    requires forall r :: At(ps, r) == At(AllPrefixed(segments, want), r)
    ensures PrefixList(ps, docs, want)
  {
    forall i | 0 <= i < |ps|
      ensures ShowsLeast(ps[i], docs, want)
    {
      AtAscend(ps, i);
      var key := KeptIsLeast(segments, want, order, ages, data, docs, ps[i]);
    }
    forall r
      ensures HasRowid(ps, r) <==> r in docs && Prefixed(docs[r], want)
    {
      AtHas(ps, r);
      if r in docs && Prefixed(docs[r], want) {
        PrefixedFound(segments, want, order, ages, data, docs, r);
      }
    }
  }

  /** The index cannot tell about these terms: it has no segment, a delete marker for one of them, or one of
      their documents in two segments. */
  ghost predicate SilentPrefix(ix: Index, want: bytes)
    reads ix, ix.structure
  {
    var order := Recorded(ix.structure.levels);
    order == [] || Stuck(PagesIn(order, ix.data), PrefixDecode(want))
  }

  method PrefixPostings(ix: Index, want: bytes) returns (r: Option<seq<Posting>>)
    requires ix.Valid()
    ensures r.None? <==> SilentPrefix(ix, want)
    ensures r.Some? ==> PrefixList(r.value, ix.docs, want)
  {
    var segments := SegmentsLeaves(ix);
    if segments.None? {
      return None;
    }
    r := MergeSegments(segments.value, PrefixDecode(want));
    if r.Some? {
      MergedFirst(AllPrefixed(segments.value, want));
      MergedMeans(segments.value, want, Recorded(ix.structure.levels), Ages(ix.structure.levels), ix.data, ix.docs,
                  r.value);
    }
  }

  predicate Keeps(p: Posting, column: Option<nat>) {
    column.None? || ColumnOf(p.cols, column.value) != []
  }

  // The postings with a position in the column, in the order they have already.
  method RowidsKept(ps: seq<Posting>, column: Option<nat>) returns (out: seq<int>)
    requires Ascend(ps)
    ensures Ascending(out)
    ensures forall r :: r in out <==> exists i :: 0 <= i < |ps| && ps[i].rowid == r && Keeps(ps[i], column)
  {
    out := [];
    for i := 0 to |ps|
      invariant Ascending(out)
      invariant forall r :: r in out <==> exists k :: 0 <= k < i && ps[k].rowid == r && Keeps(ps[k], column)
    {
      if Keeps(ps[i], column) {
        assert forall k :: 0 <= k < |out| ==> out[k] in out;
        out := out + [ps[i].rowid];
      }
    }
  }

  /** A term with the prefix in the column. */
  ghost predicate PrefixedIn(doc: Document, want: bytes, c: nat) {
    exists key :: want <= key && InColumn(doc, key, c)
  }

  /** The least term with the prefix in the column. */
  ghost predicate LeastIn(doc: Document, want: bytes, c: nat) {
    exists key :: LeastTerm(doc, want, key) && InColumn(doc, key, c)
  }

  lemma {:induction false} LeastUnique(doc: Document, want: bytes, a: bytes, b: bytes)
    requires LeastTerm(doc, want, a) && LeastTerm(doc, want, b)
    ensures a == b
  {
    LexFlip(a, b);
    LexEqual(a, b);
  }

  lemma {:induction false} IndexedColumn(docs: Documents, key: bytes, r: int, cols: seq<seq<nat>>, c: nat)
    requires Indexed(docs, key, r) == Some(cols)
    ensures ColumnOf(cols, c) != [] <==> InColumn(docs[r], key, c)
  {
    var all := Cols(docs[r], key);
    NormedSame(Posting(r, all, false));
    assert ColumnOf(Norm(all, |all|), c) == ColumnOf(all, c);
  }

  lemma {:induction false} KeptLeast(p: Posting, docs: Documents, want: bytes, c: nat)
    requires ShowsLeast(p, docs, want)
    ensures Keeps(p, Some(c)) <==> LeastIn(docs[p.rowid], want, c)
  {
    var doc := docs[p.rowid];
    var key :| LeastTerm(doc, want, key) && Indexed(docs, key, p.rowid) == Some(p.cols);
    IndexedColumn(docs, key, p.rowid, p.cols, c);
    if k :| LeastTerm(doc, want, k) && InColumn(doc, k, c) {
      LeastUnique(doc, want, k, key);
    }
  }

  ghost predicate PrefixWanted(doc: Document, want: bytes, column: Option<nat>) {
    match column
    case None => Prefixed(doc, want)
    case Some(c) => LeastIn(doc, want, c)
  }

  lemma {:induction false} KeptWanted(ps: seq<Posting>, docs: Documents, want: bytes, column: Option<nat>, r: int)
    requires PrefixList(ps, docs, want)
    ensures (exists i :: 0 <= i < |ps| && ps[i].rowid == r && Keeps(ps[i], column))
       <==> r in docs && PrefixWanted(docs[r], want, column)
  {
    if HasRowid(ps, r) {
      var i :| 0 <= i < |ps| && ps[i].rowid == r;
      assert forall k :: 0 <= k < |ps| && ps[k].rowid == r ==> k == i;
      assert ShowsLeast(ps[i], docs, want);
      if column.Some? {
        KeptLeast(ps[i], docs, want, column.value);
      }
    }
  }

  /** A prefix: the rowids of the documents with such a term; in one column, of those whose least such term is
      there. */
  method PrefixRowids(ix: Index, prefix: bytes, column: Option<nat>) returns (r: Option<seq<int>>)
    requires ix.Valid()
    ensures r.None? <==> SilentPrefix(ix, Key(prefix))
    ensures r.Some? ==> Ascending(r.value)
    ensures r.Some? ==> forall id :: id in r.value <==> id in ix.docs && PrefixWanted(ix.docs[id], Key(prefix), column)
  {
    var ps := PrefixPostings(ix, Key(prefix));
    if ps.None? {
      return None;
    }
    var out := RowidsKept(ps.value, column);
    forall id
      ensures id in out <==> id in ix.docs && PrefixWanted(ix.docs[id], Key(prefix), column)
    {
      KeptWanted(ps.value, ix.docs, Key(prefix), column, id);
    }
    r := Some(out);
  }

  /** A term in one column: the rowids of the documents that have it there. */
  method TermRowidsInColumn(ix: Index, token: bytes, c: nat) returns (r: Option<seq<int>>)
    requires ix.Valid()
    ensures r.None? <==> Silent(ix, [Key(token)])
    ensures r.Some? ==> Ascending(r.value)
    ensures r.Some? ==> forall id :: id in r.value <==> id in ix.docs && InColumn(ix.docs[id], Key(token), c)
  {
    var lists := TermLists(ix, [Key(token)]);
    if lists.None? {
      return None;
    }
    var ps := lists.value[0];
    assert Lists(ps, ix.docs, [Key(token)][0]);
    var out := RowidsKept(ps, Some(c));
    forall id
      ensures id in out <==> id in ix.docs && InColumn(ix.docs[id], Key(token), c)
    {
      ListedInColumn(ps, ix.docs, Key(token), c, id);
    }
    r := Some(out);
  }

  lemma {:induction false} ListedInColumn(ps: seq<Posting>, docs: Documents, key: bytes, c: nat, r: int)
    requires Lists(ps, docs, key)
    ensures (exists i :: 0 <= i < |ps| && ps[i].rowid == r && Keeps(ps[i], Some(c)))
       <==> r in docs && InColumn(docs[r], key, c)
  {
    if HasRowid(ps, r) {
      var i :| 0 <= i < |ps| && ps[i].rowid == r;
      assert ps[i] in ps;
      assert forall k :: 0 <= k < |ps| && ps[k].rowid == r ==> k == i;
      IndexedColumn(docs, key, r, ps[i].cols, c);
    } else if r in docs && InColumn(docs[r], key, c) {
      assert Has(docs[r], key);
    }
  }

  // ----- When the least term tells

  /** No document has a term with the prefix in the column, but a lesser one only elsewhere. */
  ghost predicate LeastTells(docs: Documents, want: bytes, c: nat) {
    forall r :: r in docs && PrefixedIn(docs[r], want, c) ==> LeastIn(docs[r], want, c)
  }

  ghost function KeysIn(doc: Document): set<bytes> {
    set c, p | 0 <= c < |doc| && 0 <= p < |doc[c]| :: Key(doc[c][p])
  }

  lemma {:induction false} KeysInHas(doc: Document, key: bytes)
    ensures Has(doc, key) <==> key in KeysIn(doc)
  {
    if Has(doc, key) {
      var c :| 0 <= c < |doc| && Positions(doc[c], key, |doc[c]|) != [];
      var p := Positions(doc[c], key, |doc[c]|)[0];
      PositionsAre(doc[c], key, |doc[c]|);
      assert p in Positions(doc[c], key, |doc[c]|);
    }
    if key in KeysIn(doc) {
      var c, p :| 0 <= c < |doc| && 0 <= p < |doc[c]| && Key(doc[c][p]) == key;
      PositionsAre(doc[c], key, |doc[c]|);
      assert p in Positions(doc[c], key, |doc[c]|);
    }
  }

  lemma {:induction false} LeastOf(keys: set<bytes>) returns (least: bytes)
    requires keys != {}
    ensures least in keys && forall k :: k in keys ==> LexCmp(least, k) != Greater
    decreases |keys|
  {
    var x :| x in keys;
    LexEqual(x, x);
    var rest := keys - {x};
    assert forall k :: k in keys ==> k == x || k in rest;
    if rest == {} {
      least := x;
    } else {
      var y := LeastOf(rest);
      least := if LexCmp(x, y) == Greater then y else x;
      LexFlip(x, y);
      forall k | k in keys
        ensures LexCmp(least, k) != Greater
      {
        if k != x && least == x {
          LexTransitive(x, y, k);
        }
      }
    }
  }

  lemma {:induction false} LeastExists(doc: Document, want: bytes) returns (key: bytes)
    requires Prefixed(doc, want)
    ensures LeastTerm(doc, want, key)
  {
    var keys := set k | k in KeysIn(doc) && want <= k;
    forall k
      ensures k in keys <==> want <= k && Has(doc, k)
    {
      KeysInHas(doc, k);
    }
    var some :| want <= some && Has(doc, some);
    assert some in keys;
    key := LeastOf(keys);
  }

  /** In a table of one column the least term always tells. */
  lemma {:induction false} OneColumnTells(docs: Documents, want: bytes)
    requires forall r :: r in docs ==> |docs[r]| == 1
    ensures LeastTells(docs, want, 0)
  {
    forall r | r in docs && PrefixedIn(docs[r], want, 0)
      ensures LeastIn(docs[r], want, 0)
    {
      var some :| want <= some && InColumn(docs[r], some, 0);
      assert Has(docs[r], some);
      var key := LeastExists(docs[r], want);
      assert InColumn(docs[r], key, 0);
    }
  }

  /** With `ab` in the first column and `aa` in the second, `a*` is in the first, but its least term is not. */
  lemma {:induction false} SecondColumnHides()
    ensures var doc, want := [[[0x61, 0x62]], [[0x61, 0x61]]], Key([0x61]);
            PrefixedIn(doc, want, 0) && !LeastIn(doc, want, 0) && !LeastTells(map[1 := doc], want, 0)
  {
    var ab, aa: bytes := [0x61, 0x62], [0x61, 0x61];
    var doc, want := [[ab], [aa]], Key([0x61]);
    TokenPosition(doc[0], ab, 0);
    TokenPosition(doc[1], aa, 0);
    assert want <= Key(ab) && InColumn(doc, Key(ab), 0) && want <= Key(aa) && InColumn(doc, Key(aa), 1);
    if key :| LeastTerm(doc, want, key) && InColumn(doc, key, 0) {
      PositionsAre(doc[0], key, 1);
      assert Positions(doc[0], key, 1)[0] in Positions(doc[0], key, 1);
      assert key == Key(ab);
      assert Has(doc, Key(aa)) && LexCmp(key, Key(aa)) != Greater;
      HidesLess();
    }
    assert (map[1 := doc])[1] == doc;
  }

  lemma {:induction false} HidesLess()
    ensures LexCmp(Key([0x61, 0x62]), Key([0x61, 0x61])) == Greater
  {
    var a, b := Key([0x61, 0x62]), Key([0x61, 0x61]);
    assert a[1..] == [0x61, 0x62] && b[1..] == [0x61, 0x61];
    assert a[1..][1..] == [0x62] && b[1..][1..] == [0x61];
  }
}
