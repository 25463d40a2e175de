/** Answering queries from the pages of an index. The segments are read one by one, without regard to
    their age: as soon as a delete marker turns up, or a document in two segments, there is no answer. */
module SegQuery {
  import opened Bytes
  import opened Poslist
  import opened SegLeaf
  import opened SegRead
  import opened SegWrite
  import opened Postings
  import opened Sorting

  // ----- One term in one segment

  function NoDelete(r: Result<RawEntry>): Result<RawEntry> {
    if r.Ok? && r.value.del then Corrupt else r
  }

  // An entry, but no delete marker.
  function ReadStrict(s: bytes): Result<RawEntry> {
    NoDelete(ReadEntry(s))
  }

  function DecodeStrict(runs: seq<Run>): Result<seq<Posting>> {
    var f := ExtendAll(NOTHING, runs);
    Entries(ReadStrict, NextRowid, f.buf, 0, f.marks, 0)
  }

  predicate AllLive(ps: seq<Posting>) {
    forall i :: 0 <= i < |ps| ==> !ps[i].del
  }

  function LiveOrBail(ps: seq<Posting>): SegDecode {
    if AllLive(ps) then Found(ps) else Bail
  }

  lemma {:induction false} StrictEntries(read: EntryReader, strict: EntryReader, next: RowidStep, s: bytes, at: nat,
                                         marks: set<nat>, rowid: int)
    requires forall b :: strict(b) == NoDelete(read(b))
    requires Entries(read, next, s, at, marks, rowid).Ok?
    ensures var ps := Entries(read, next, s, at, marks, rowid).value;
            Entries(strict, next, s, at, marks, rowid) == if AllLive(ps) then Ok(ps) else Corrupt
    decreases |s|
  {
    if s != [] {
      var e := read(s).value;
      var r := next(at == 0 || at in marks, rowid, e.field);
      StrictEntries(read, strict, next, s[e.length..], at + e.length, marks, r);
      var rest := Entries(read, next, s[e.length..], at + e.length, marks, r).value;
      var p := Posting(r, e.cols, e.del);
      LiveCons(p, rest);
    }
  }

  lemma {:induction false} LiveCons(p: Posting, rest: seq<Posting>)
    ensures AllLive([p] + rest) <==> !p.del && AllLive(rest)
  {
    var all := [p] + rest;
    assert all[0] == p && forall i :: 0 <= i < |rest| ==> all[i + 1] == rest[i];
  }

  datatype SegDecode = Bail | Found(postings: seq<Posting>)

  // The first record with this key from term `ti` of leaf `li` on.
  function FindFrom(bs: seq<bytes>, views: seq<View>, li: nat, ti: nat, key: bytes): SegDecode
    requires |bs| == |views| && (li < |bs| ==> ti <= |views[li].terms|)
    decreases |bs| - li, if li < |bs| then |views[li].terms| - ti else 0
  {
    if li >= |bs| then Found([])
    else if ti == |views[li].terms| then FindFrom(bs, views, li + 1, 0, key)
    else if views[li].terms[ti].key != key then FindFrom(bs, views, li, ti + 1, key)
    else
      match Gather(bs, views, li, ti)
      case Corrupt => Bail
      case Ok(runs) =>
        match DecodeStrict(runs)
        case Corrupt => Bail
        case Ok(ps) => Found(ps)
  }

  /** The postings of a term in a segment, if they can be used without looking at other segments. */
  function DecodeTermStrict(bs: seq<bytes>, key: bytes): SegDecode {
    match ParseAll(bs)
    case Corrupt => Bail
    case Ok(views) => FindFrom(bs, views, 0, 0, key)
  }

  lemma {:induction false} FindReads(bs: seq<bytes>, views: seq<View>, li: nat, ti: nat, key: bytes)
    requires |bs| == |views| && (li < |bs| ==> ti <= |views[li].terms|) && TermsFrom(bs, views, li, ti).Ok?
    ensures FindFrom(bs, views, li, ti, key) == LiveOrBail(Rows(TermsFrom(bs, views, li, ti).value, key))
    decreases |bs| - li, if li < |bs| then |views[li].terms| - ti else 0
  {
    if li < |bs| {
      if ti == |views[li].terms| {
        FindReads(bs, views, li + 1, 0, key);
      } else {
        var t := TermsFrom(bs, views, li, ti).value;
        FindReads(bs, views, li, ti + 1, key);
        assert t[1..] == TermsFrom(bs, views, li, ti + 1).value;
        var runs := Gather(bs, views, li, ti).value;
        var f := ExtendAll(NOTHING, runs);
        StrictEntries(ReadEntry, ReadStrict, NextRowid, f.buf, 0, f.marks, 0);
      }
    }
  }

  /** A segment that can be read gives the postings of a term, unless one of them is a delete marker. */
  lemma {:induction false} StrictReads(bs: seq<bytes>, key: bytes)
    requires ReadSegment(bs).Ok?
    ensures DecodeTermStrict(bs, key) == LiveOrBail(Rows(ReadSegment(bs).value, key))
  {
    FindReads(bs, ParseAll(bs).value, 0, 0, key);
  }

  // ----- Terms in all segments

  function Served(bs: seq<bytes>, key: bytes): seq<Posting> {
    var d := DecodeTermStrict(bs, key);
    if d.Found? then d.postings else []
  }

  function ServedAll(segments: seq<seq<bytes>>, key: bytes): (r: seq<seq<Posting>>)
    ensures |r| == |segments|
  {
    seq(|segments|, i requires 0 <= i < |segments| => Served(segments[i], key))
  }

  /** The first `n` lists, one after the other. */
  function Joined(lists: seq<seq<Posting>>, n: nat): seq<Posting>
    requires n <= |lists|
  {
    if n == 0 then [] else Joined(lists, n - 1) + lists[n - 1]
  }

  /** The postings of a term in all segments. */
  function AllPostings(segments: seq<seq<bytes>>, key: bytes): seq<Posting> {
    Joined(ServedAll(segments, key), |segments|)
  }

  /** A document has a posting for one of the terms in this segment. */
  ghost predicate InSegment(segments: seq<seq<bytes>>, keys: seq<bytes>, si: nat, r: int) {
    si < |segments| && InTerms(segments[si], keys, |keys|, r)
  }

  ghost predicate Straddled(segments: seq<seq<bytes>>, keys: seq<bytes>) {
    exists si, sj, r :: si != sj && InSegment(segments, keys, si, r) && InSegment(segments, keys, sj, r)
  }

  /** There is a term that cannot be read, or a document in two segments. */
  ghost predicate Blocked(segments: seq<seq<bytes>>, keys: seq<bytes>) {
    || (exists si, t :: 0 <= si < |segments| && 0 <= t < |keys| && DecodeTermStrict(segments[si], keys[t]).Bail?)
    || Straddled(segments, keys)
  }

  datatype Seen = Seen(rowid: int, seg: nat)

  predicate SeenLe(a: Seen, b: Seen) {
    a.rowid < b.rowid || (a.rowid == b.rowid && a.seg <= b.seg)
  }

  ghost predicate Straddles(seen: seq<Seen>) {
    exists a, b :: a in seen && b in seen && a.rowid == b.rowid && a.seg != b.seg
  }

  predicate Straddling(a: Seen, b: Seen) {
    a.rowid == b.rowid && a.seg != b.seg
  }

  // Two such entries are next to each other somewhere.
  lemma {:induction false} NextToEachOther(s: seq<Seen>, i: nat, j: nat) returns (k: nat)
    requires Sorted(s, SeenLe) && i < j < |s| && Straddling(s[i], s[j])
    ensures 0 < k < |s| && Straddling(s[k - 1], s[k])
    decreases j - i
  {
    if s[j - 1].seg != s[j].seg {
      assert i == j - 1 || SeenLe(s[i], s[j - 1]);
      assert SeenLe(s[j - 1], s[j]);
      k := j;
    } else {
      assert SeenLe(s[i], s[j - 1]) && SeenLe(s[j - 1], s[j]);
      k := NextToEachOther(s, i, j - 1);
    }
  }

  /** Sort, and look at neighbours. */
  method FindStraddling(seen: seq<Seen>) returns (b: bool)
    ensures b <==> Straddles(seen)
  {
    var s := Sort(seen, SeenLe);
    SortSorted(seen, SeenLe);
    forall x
      ensures x in s <==> x in seen
    {
      SortSame(seen, SeenLe, x);
    }
    var k := 1;
    while k < |s|
      invariant 0 < k && forall i :: 0 < i < k && i < |s| ==> !Straddling(s[i - 1], s[i])
    {
      if Straddling(s[k - 1], s[k]) {
        assert s[k - 1] in seen && s[k] in seen;
        return true;
      }
      k := k + 1;
    }
    NoneStraddling(s);
    b := false;
  }

  lemma {:induction false} NoneStraddling(s: seq<Seen>)
    requires Sorted(s, SeenLe) && forall i :: 0 < i < |s| ==> !Straddling(s[i - 1], s[i])
    ensures !Straddles(s)
  {
    if Straddles(s) {
      var a, b :| a in s && b in s && a.rowid == b.rowid && a.seg != b.seg;
      var i :| 0 <= i < |s| && s[i] == a;
      var j :| 0 <= j < |s| && s[j] == b;
      var k := NextToEachOther(s, if i < j then i else j, if i < j then j else i);
      assert false;
    }
  }

  function Tagged(ps: seq<Posting>, si: nat): (r: seq<Seen>)
    ensures forall x :: x in r <==> x.seg == si && HasRowid(ps, x.rowid)
  {
    var r := seq(|ps|, i requires 0 <= i < |ps| => Seen(ps[i].rowid, si));
    assert forall i :: 0 <= i < |ps| ==> r[i] == Seen(ps[i].rowid, si);
    r
  }

  predicate HasRowid(ps: seq<Posting>, r: int) {
    exists i :: 0 <= i < |ps| && ps[i].rowid == r
  }

  // A document of the first `n` terms is in this segment.
  ghost predicate InTerms(bs: seq<bytes>, keys: seq<bytes>, n: nat, r: int) {
    exists t :: 0 <= t < n && t < |keys| && HasRowid(Served(bs, keys[t]), r)
  }

  lemma {:induction false} InTermsNext(bs: seq<bytes>, keys: seq<bytes>, n: nat, r: int)
    requires n < |keys|
    ensures InTerms(bs, keys, n + 1, r) <==> InTerms(bs, keys, n, r) || HasRowid(Served(bs, keys[n]), r)
  {
    if InTerms(bs, keys, n + 1, r) {
      var t :| 0 <= t < n + 1 && t < |keys| && HasRowid(Served(bs, keys[t]), r);
      assert t < n ==> InTerms(bs, keys, n, r);
    }
  }

  // What has been seen after `ti` terms of segment `si`.
  ghost predicate SeenTo(seen: seq<Seen>, segments: seq<seq<bytes>>, keys: seq<bytes>, si: nat, ti: nat) {
    forall x :: x in seen <==>
      || (x.seg < si && x.seg < |segments| && InTerms(segments[x.seg], keys, |keys|, x.rowid))
      || (x.seg == si < |segments| && InTerms(segments[si], keys, ti, x.rowid))
  }

  lemma {:induction false} SeenTerm(seen: seq<Seen>, segments: seq<seq<bytes>>, keys: seq<bytes>, si: nat, ti: nat)
    requires si < |segments| && ti < |keys| && SeenTo(seen, segments, keys, si, ti)
    ensures SeenTo(seen + Tagged(Served(segments[si], keys[ti]), si), segments, keys, si, ti + 1)
  {
    var now, next := seen + Tagged(Served(segments[si], keys[ti]), si), ti + 1;
    forall x
      ensures x in now <==>
                || (x.seg < si && x.seg < |segments| && InTerms(segments[x.seg], keys, |keys|, x.rowid))
                || (x.seg == si < |segments| && InTerms(segments[si], keys, next, x.rowid))
    {
      InTermsNext(segments[si], keys, ti, x.rowid);
    }
  }

  lemma {:induction false} SeenSegment(seen: seq<Seen>, segments: seq<seq<bytes>>, keys: seq<bytes>, si: nat)
    requires si < |segments| && SeenTo(seen, segments, keys, si, |keys|)
    ensures SeenTo(seen, segments, keys, si + 1, 0)
  {
    var next := si + 1;
    forall x
      ensures x in seen <==>
                || (x.seg < next && x.seg < |segments| && InTerms(segments[x.seg], keys, |keys|, x.rowid))
                || (x.seg == next < |segments| && InTerms(segments[next], keys, 0, x.rowid))
    {
    }
  }

  // An entry tells that a document is in a segment.
  lemma {:induction false} SeenIs(seen: seq<Seen>, segments: seq<seq<bytes>>, keys: seq<bytes>, si: nat, r: int)
    requires SeenTo(seen, segments, keys, |segments|, 0)
    ensures Seen(r, si) in seen <==> InSegment(segments, keys, si, r)
  {
    assert Seen(r, si).seg == si && Seen(r, si).rowid == r;
  }

  lemma {:induction false} SeenAll(seen: seq<Seen>, segments: seq<seq<bytes>>, keys: seq<bytes>)
    requires SeenTo(seen, segments, keys, |segments|, 0)
    ensures Straddles(seen) <==> Straddled(segments, keys)
  {
    if Straddles(seen) {
      var a, b :| a in seen && b in seen && a.rowid == b.rowid && a.seg != b.seg;
      SeenIs(seen, segments, keys, a.seg, a.rowid);
      SeenIs(seen, segments, keys, b.seg, b.rowid);
      assert a == Seen(a.rowid, a.seg) && b == Seen(b.rowid, b.seg);
    }
    if Straddled(segments, keys) {
      var si, sj, r :| si != sj && InSegment(segments, keys, si, r) && InSegment(segments, keys, sj, r);
      SeenIs(seen, segments, keys, si, r);
      SeenIs(seen, segments, keys, sj, r);
    }
  }

  ghost predicate NoBail(segments: seq<seq<bytes>>, keys: seq<bytes>, si: nat, ti: nat) {
    && (forall s, t :: 0 <= s < si && s < |segments| && 0 <= t < |keys| ==>
          DecodeTermStrict(segments[s], keys[t]).Found?)
    && (si < |segments| ==> forall t :: 0 <= t < ti && t < |keys| ==> DecodeTermStrict(segments[si], keys[t]).Found?)
  }

  predicate RowidLe(a: Posting, b: Posting) {
    a.rowid <= b.rowid
  }

  // The postings so far: all of the first `si` segments, and the first `ti` terms of the next one.
  ghost predicate GatheredTo(perTerm: seq<seq<Posting>>, segments: seq<seq<bytes>>, keys: seq<bytes>, si: nat, ti: nat)
    requires si < |segments| || (si == |segments| && ti == 0)
  {
    |perTerm| == |keys| && forall t :: 0 <= t < |keys| ==>
      perTerm[t] == Joined(ServedAll(segments, keys[t]), if t < ti then si + 1 else si)
  }

  lemma {:induction false} GatherTerm(perTerm: seq<seq<Posting>>, segments: seq<seq<bytes>>, keys: seq<bytes>, si: nat,
                                      ti: nat)
    requires si < |segments| && ti < |keys| && GatheredTo(perTerm, segments, keys, si, ti)
    ensures GatheredTo(perTerm[ti := perTerm[ti] + Served(segments[si], keys[ti])], segments, keys, si, ti + 1)
  {
  }

  lemma {:induction false} GatherSegment(perTerm: seq<seq<Posting>>, segments: seq<seq<bytes>>, keys: seq<bytes>,
                                         si: nat)
    requires si < |segments| && GatheredTo(perTerm, segments, keys, si, |keys|)
    ensures GatheredTo(perTerm, segments, keys, si + 1, 0)
  {
  }

  lemma {:induction false} NoBailTerm(segments: seq<seq<bytes>>, keys: seq<bytes>, si: nat, ti: nat)
    requires si < |segments| && ti < |keys| && NoBail(segments, keys, si, ti)
    requires DecodeTermStrict(segments[si], keys[ti]).Found?
    ensures NoBail(segments, keys, si, ti + 1)
  {
  }

  // The terms of one more segment.
  method DecodeSegment(segments: seq<seq<bytes>>, keys: seq<bytes>, si: nat, perTerm: seq<seq<Posting>>,
                       seen: seq<Seen>)
    returns (bail: bool, perTermNow: seq<seq<Posting>>, seenNow: seq<Seen>)
    requires si < |segments| && SeenTo(seen, segments, keys, si, 0) && NoBail(segments, keys, si, 0)
    requires GatheredTo(perTerm, segments, keys, si, 0)
    ensures bail ==> exists t :: 0 <= t < |keys| && DecodeTermStrict(segments[si], keys[t]).Bail?
    ensures !bail ==> SeenTo(seenNow, segments, keys, si + 1, 0) && NoBail(segments, keys, si + 1, 0)
    ensures !bail ==> GatheredTo(perTermNow, segments, keys, si + 1, 0)
  {
    perTermNow, seenNow, bail := perTerm, seen, false;
    for ti := 0 to |keys|
      invariant SeenTo(seenNow, segments, keys, si, ti) && NoBail(segments, keys, si, ti)
      invariant GatheredTo(perTermNow, segments, keys, si, ti)
    {
      var d := DecodeTermStrict(segments[si], keys[ti]);
      if d.Bail? {
        return true, perTermNow, seenNow;
      }
      SeenTerm(seenNow, segments, keys, si, ti);
      GatherTerm(perTermNow, segments, keys, si, ti);
      NoBailTerm(segments, keys, si, ti);
      seenNow := seenNow + Tagged(d.postings, si);
      perTermNow := perTermNow[ti := perTermNow[ti] + d.postings];
    }
    SeenSegment(seenNow, segments, keys, si);
    GatherSegment(perTermNow, segments, keys, si);
  }

  lemma {:induction false} BailBlocks(segments: seq<seq<bytes>>, keys: seq<bytes>, si: nat)
    requires si < |segments| && exists t :: 0 <= t < |keys| && DecodeTermStrict(segments[si], keys[t]).Bail?
    ensures Blocked(segments, keys)
  {
  }

  lemma {:induction false} NotBlocked(segments: seq<seq<bytes>>, keys: seq<bytes>)
    requires NoBail(segments, keys, |segments|, 0) && !Straddled(segments, keys)
    ensures !Blocked(segments, keys)
  {
  }

  ghost predicate Answers(lists: seq<seq<Posting>>, segments: seq<seq<bytes>>, keys: seq<bytes>) {
    && |lists| == |keys|
    && forall t :: 0 <= t < |keys| ==> lists[t] == Sort(AllPostings(segments, keys[t]), RowidLe)
  }

  method SortLists(lists: seq<seq<Posting>>, ghost segments: seq<seq<bytes>>, ghost keys: seq<bytes>)
    returns (r: seq<seq<Posting>>)
    requires GatheredTo(lists, segments, keys, |segments|, 0)
    ensures Answers(r, segments, keys)
  {
    r := seq(|lists|, t requires 0 <= t < |lists| => Sort(lists[t], RowidLe));
  }

  /** The postings of several terms, each list by rowid, unless there is no answer. */
  method DecodeTerms(segments: seq<seq<bytes>>, keys: seq<bytes>) returns (r: Option<seq<seq<Posting>>>)
    ensures r.None? <==> Blocked(segments, keys)
    ensures r.Some? ==> Answers(r.value, segments, keys)
  {
    var perTerm := seq(|keys|, t requires 0 <= t < |keys| => []);
    var seen: seq<Seen> := [];
    for si := 0 to |segments|
      invariant SeenTo(seen, segments, keys, si, 0) && NoBail(segments, keys, si, 0)
      invariant GatheredTo(perTerm, segments, keys, si, 0)
    {
      var bail;
      bail, perTerm, seen := DecodeSegment(segments, keys, si, perTerm, seen);
      if bail {
        BailBlocks(segments, keys, si);
        return None;
      }
    }
    SeenAll(seen, segments, keys);
    var straddles := FindStraddling(seen);
    if straddles {
      return None;
    }
    NotBlocked(segments, keys);
    var lists := SortLists(perTerm, segments, keys);
    r := Some(lists);
  }

  // ----- The lists are by rowid and without duplicates

  ghost predicate Ascend(ps: seq<Posting>) {
    forall i, j :: 0 <= i < j < |ps| ==> ps[i].rowid < ps[j].rowid
  }

  ghost predicate DistinctRows(ps: seq<Posting>) {
    forall i, j :: 0 <= i < j < |ps| ==> ps[i].rowid != ps[j].rowid
  }

  lemma {:induction false} PostingsAscend(ps: seq<Posting>)
    requires PostingsOk(ps)
    ensures Ascend(ps)
  {
    if ps != [] {
      PostingsTail(ps);
      PostingsAscend(ps[1..]);
      assert forall i :: 0 < i < |ps| ==> ps[i] == ps[1..][i - 1];
    }
  }

  lemma {:induction false} JoinedIn(lists: seq<seq<Posting>>, n: nat, p: Posting)
    requires n <= |lists|
    ensures p in Joined(lists, n) <==> exists i :: 0 <= i < n && p in lists[i]
  {
    if n > 0 {
      JoinedIn(lists, n - 1, p);
    }
  }

  lemma {:induction false} RowidIn(ps: seq<Posting>, r: int)
    ensures HasRowid(ps, r) <==> exists p :: p in ps && p.rowid == r
  {
    if HasRowid(ps, r) {
      var i :| 0 <= i < |ps| && ps[i].rowid == r;
      assert ps[i] in ps;
    }
  }

  lemma {:induction false} DistinctJoin(a: seq<Posting>, b: seq<Posting>)
    requires DistinctRows(a) && DistinctRows(b) && forall r :: !(HasRowid(a, r) && HasRowid(b, r))
    ensures DistinctRows(a + b)
  {
    forall i, j | 0 <= i < |a| && 0 <= j < |b|
      ensures a[i].rowid != b[j].rowid
    {
      assert HasRowid(a, a[i].rowid);
      assert HasRowid(b, b[j].rowid);
    }
  }

  ghost predicate Disjoint(lists: seq<seq<Posting>>) {
    forall i, j, r :: 0 <= i < j < |lists| ==> !(HasRowid(lists[i], r) && HasRowid(lists[j], r))
  }

  lemma {:induction false} JoinedDistinct(lists: seq<seq<Posting>>, n: nat)
    requires n <= |lists| && Disjoint(lists) && forall i :: 0 <= i < |lists| ==> DistinctRows(lists[i])
    ensures DistinctRows(Joined(lists, n))
  {
    if n > 0 {
      var before, more := Joined(lists, n - 1), lists[n - 1];
      JoinedDistinct(lists, n - 1);
      forall r
        ensures !(HasRowid(before, r) && HasRowid(more, r))
      {
        if HasRowid(before, r) {
          var i :| 0 <= i < |before| && before[i].rowid == r;
          JoinedIn(lists, n - 1, before[i]);
          var k :| 0 <= k < n - 1 && before[i] in lists[k];
          RowidIn(lists[k], r);
        }
      }
      DistinctJoin(before, more);
    }
  }

  lemma {:induction false} InsertIn<T>(s: seq<T>, x: T, le: (T, T) -> bool, y: T)
    ensures y in Insert(s, x, le) <==> y in s || y == x
  {
    assert y in multiset(Insert(s, x, le)) <==> y in multiset(s) + multiset{x};
  }

  lemma {:induction false} InsertDistinct(s: seq<Posting>, x: Posting)
    requires DistinctRows(s) && !HasRowid(s, x.rowid)
    ensures DistinctRows(Insert(s, x, RowidLe))
    decreases s
  {
    if s != [] && RowidLe(s[0], x) {
      var t := s[1..];
      assert forall i :: 0 <= i < |t| ==> t[i] == s[i + 1];
      InsertDistinct(t, x);
      var r := Insert(t, x, RowidLe);
      forall j | 0 <= j < |r|
        ensures r[j].rowid != s[0].rowid
      {
        InsertIn(t, x, RowidLe, r[j]);
        assert r[j] in r;
        if r[j] != x {
          var k :| 0 <= k < |t| && t[k] == r[j];
        } else {
          assert s[0] in s && (s[0].rowid == x.rowid ==> HasRowid(s, x.rowid));
        }
      }
    }
  }

  lemma {:induction false} SortRowid(s: seq<Posting>, r: int)
    ensures HasRowid(Sort(s, RowidLe), r) <==> HasRowid(s, r)
  {
    RowidIn(s, r);
    RowidIn(Sort(s, RowidLe), r);
    forall p
      ensures p in Sort(s, RowidLe) <==> p in s
    {
      SortSame(s, RowidLe, p);
    }
  }

  lemma {:induction false} SortDistinct(s: seq<Posting>)
    requires DistinctRows(s)
    ensures DistinctRows(Sort(s, RowidLe))
    decreases s
  {
    if s != [] {
      var n := |s| - 1;
      SortDistinct(s[..n]);
      SortRowid(s[..n], s[n].rowid);
      InsertDistinct(Sort(s[..n], RowidLe), s[n]);
    }
  }

  // A document of a term in two segments straddles them.
  lemma {:induction false} ServedDisjoint(segments: seq<seq<bytes>>, keys: seq<bytes>, t: nat)
    requires t < |keys| && !Straddled(segments, keys)
    ensures Disjoint(ServedAll(segments, keys[t]))
  {
    forall i, j, r | 0 <= i < j < |segments|
      ensures !(HasRowid(ServedAll(segments, keys[t])[i], r) && HasRowid(ServedAll(segments, keys[t])[j], r))
    {
      InOneTerm(segments, keys, t, i, r);
      InOneTerm(segments, keys, t, j, r);
    }
  }

  lemma {:induction false} InOneTerm(segments: seq<seq<bytes>>, keys: seq<bytes>, t: nat, si: nat, r: int)
    requires t < |keys| && si < |segments|
    ensures HasRowid(ServedAll(segments, keys[t])[si], r) ==> InSegment(segments, keys, si, r)
  {
  }

  /** Without a document in two segments, the list of a term is in strict order. */
  lemma {:induction false} ListAscends(segments: seq<seq<bytes>>, keys: seq<bytes>, t: nat)
    requires t < |keys| && !Straddled(segments, keys)
    requires forall si :: 0 <= si < |segments| ==> PostingsOk(ServedAll(segments, keys[t])[si])
    ensures Ascend(Sort(AllPostings(segments, keys[t]), RowidLe))
  {
    var lists := ServedAll(segments, keys[t]);
    ServedDisjoint(segments, keys, t);
    forall i | 0 <= i < |lists|
      ensures DistinctRows(lists[i])
    {
      PostingsAscend(lists[i]);
    }
    JoinedDistinct(lists, |segments|);
    SortedAscends(AllPostings(segments, keys[t]));
  }

  lemma {:induction false} SortedAscends(all: seq<Posting>)
    requires DistinctRows(all)
    ensures Ascend(Sort(all, RowidLe))
  {
    SortDistinct(all);
    SortSorted(all, RowidLe);
    var s := Sort(all, RowidLe);
    assert forall i, j :: 0 <= i < j < |s| ==> RowidLe(s[i], s[j]);
  }
}
