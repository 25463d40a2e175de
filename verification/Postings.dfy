/** The content of a segment as a value: its terms in order, each with postings in rowid order. The
    ordered maps of the merge and of a flush are sequences of this kind. */
module Postings {
  import opened Bytes
  import opened Poslist
  import opened SegRead
  import opened SegIdx
  import opened SegWrite
  import opened Segment

  // ----- Looking up

  function At(ps: seq<Posting>, r: int): (p: Option<Posting>)
    ensures p.Some? ==> p.value.rowid == r && p.value in ps
  {
    if ps == [] then None else if ps[0].rowid == r then Some(ps[0]) else At(ps[1..], r)
  }

  function Rows(seg: seq<TermPostings>, key: bytes): seq<Posting> {
    if seg == [] then [] else if seg[0].key == key then seg[0].postings else Rows(seg[1..], key)
  }

  /** The posting of a document for a term. */
  function Lookup(seg: seq<TermPostings>, key: bytes, r: int): Option<Posting> {
    At(Rows(seg, key), r)
  }

  // ----- Order

  predicate Above(key: bytes, seg: seq<TermPostings>) {
    forall i :: 0 <= i < |seg| ==> LexCmp(key, seg[i].key) == Less
  }

  predicate Ordered(seg: seq<TermPostings>) {
    seg == [] || (Above(seg[0].key, seg[1..]) && PostingsOk(seg[0].postings) && Ordered(seg[1..]))
  }

  lemma {:induction false} OrderedKeys(seg: seq<TermPostings>)
    requires Ordered(seg)
    ensures KeysAscend(KeysOf(seg)) && forall i :: 0 <= i < |seg| ==> PostingsOk(seg[i].postings)
  {
    if seg != [] {
      OrderedKeys(seg[1..]);
      assert KeysOf(seg) == [seg[0].key] + KeysOf(seg[1..]);
    }
  }

  lemma {:induction false} AboveTrans(a: bytes, b: bytes, seg: seq<TermPostings>)
    requires LexCmp(a, b) == Less && Above(b, seg)
    ensures Above(a, seg)
  {
    forall i | 0 <= i < |seg|
      ensures LexCmp(a, seg[i].key) == Less
    {
      LexTransitive(a, b, seg[i].key);
    }
  }

  // A key below all others is not there.
  lemma {:induction false} RowsBelow(seg: seq<TermPostings>, key: bytes)
    requires Above(key, seg)
    ensures Rows(seg, key) == []
  {
    if seg != [] {
      LexEqual(key, key);
      RowsBelow(seg[1..], key);
    }
  }

  lemma {:induction false} RowsOk(seg: seq<TermPostings>, key: bytes)
    requires Ordered(seg)
    ensures PostingsOk(Rows(seg, key))
  {
    if seg != [] {
      RowsOk(seg[1..], key);
    }
  }

  lemma {:induction false} PostingsTail(ps: seq<Posting>)
    requires PostingsOk(ps) && ps != []
    ensures PostingsOk(ps[1..]) && (ps[1..] != [] ==> ps[0].rowid < ps[1..][0].rowid)
  {
    var t := ps[1..];
    assert forall i :: 0 <= i < |t| ==> t[i] == ps[i + 1];
  }

  lemma {:induction false} PostingsCons(p: Posting, ps: seq<Posting>)
    requires PostingsOk(ps) && PostingOk(p) && (ps != [] ==> p.rowid < ps[0].rowid)
    ensures PostingsOk([p] + ps)
  {
    var t := [p] + ps;
    assert forall i :: 0 < i < |t| ==> t[i] == ps[i - 1];
  }

  // Rowids before the first are not there.
  lemma {:induction false} AtBelow(ps: seq<Posting>, r: int)
    requires PostingsOk(ps) && (ps != [] ==> r < ps[0].rowid)
    ensures At(ps, r) == None
  {
    if ps != [] {
      PostingsTail(ps);
      AtBelow(ps[1..], r);
    }
  }

  lemma {:induction false} AtIs(ps: seq<Posting>, i: nat)
    requires PostingsOk(ps) && i < |ps|
    ensures At(ps, ps[i].rowid) == Some(ps[i])
  {
    if i > 0 {
      PostingsTail(ps);
      AtIs(ps[1..], i - 1);
      AtBelow(ps[1..], ps[0].rowid);
    }
  }

  // ----- Inserting

  /** Insert a posting, in place of one for the same rowid. */
  function PutRow(ps: seq<Posting>, p: Posting): (r: seq<Posting>)
    ensures r != [] && r[0].rowid == if ps == [] || p.rowid < ps[0].rowid then p.rowid else ps[0].rowid
  {
    if ps == [] then [p]
    else if p.rowid < ps[0].rowid then [p] + ps
    else if p.rowid == ps[0].rowid then [p] + ps[1..]
    else [ps[0]] + PutRow(ps[1..], p)
  }

  lemma {:induction false} PutRowAt(ps: seq<Posting>, p: Posting, r: int)
    ensures At(PutRow(ps, p), r) == if r == p.rowid then Some(p) else At(ps, r)
  {
    if ps != [] {
      PutRowAt(ps[1..], p, r);
      assert ([p] + ps)[1..] == ps && ([p] + ps[1..])[1..] == ps[1..];
      assert ([ps[0]] + PutRow(ps[1..], p))[1..] == PutRow(ps[1..], p);
    }
  }

  lemma {:induction false} PutRowOk(ps: seq<Posting>, p: Posting)
    requires PostingsOk(ps) && PostingOk(p)
    ensures PostingsOk(PutRow(ps, p))
  {
    if ps != [] {
      PostingsTail(ps);
      PutRowOk(ps[1..], p);
      if p.rowid < ps[0].rowid {
        PostingsCons(p, ps);
      } else if p.rowid == ps[0].rowid {
        PostingsCons(p, ps[1..]);
      } else {
        PostingsCons(ps[0], PutRow(ps[1..], p));
      }
    }
  }

  /** Give a term these postings, in the place of its key. */
  function SetRows(seg: seq<TermPostings>, key: bytes, rows: seq<Posting>): (r: seq<TermPostings>)
    ensures r != []
  {
    if seg == [] then [TermPostings(key, rows)]
    else
      match LexCmp(key, seg[0].key)
      case Less => [TermPostings(key, rows)] + seg
      case Equal => [TermPostings(key, rows)] + seg[1..]
      case Greater => [seg[0]] + SetRows(seg[1..], key, rows)
  }

  lemma {:induction false} SetRowsRows(seg: seq<TermPostings>, key: bytes, rows: seq<Posting>, k: bytes)
    ensures Rows(SetRows(seg, key, rows), k) == if k == key then rows else Rows(seg, k)
  {
    if seg != [] {
      LexEqual(key, seg[0].key);
      SetRowsRows(seg[1..], key, rows, k);
      var one := TermPostings(key, rows);
      assert ([one] + seg)[1..] == seg && ([one] + seg[1..])[1..] == seg[1..];
      assert ([seg[0]] + SetRows(seg[1..], key, rows))[1..] == SetRows(seg[1..], key, rows);
    }
  }

  lemma {:induction false} SetRowsAbove(k: bytes, seg: seq<TermPostings>, key: bytes, rows: seq<Posting>)
    requires Above(k, seg) && LexCmp(k, key) == Less
    ensures Above(k, SetRows(seg, key, rows))
  {
    if seg != [] {
      assert Above(k, seg[1..]);
      SetRowsAbove(k, seg[1..], key, rows);
    }
  }

  lemma {:induction false} OrderedCons(t: TermPostings, seg: seq<TermPostings>)
    requires Above(t.key, seg) && PostingsOk(t.postings) && Ordered(seg)
    ensures Ordered([t] + seg)
  {
    assert ([t] + seg)[1..] == seg;
  }

  lemma {:induction false} SetRowsOrdered(seg: seq<TermPostings>, key: bytes, rows: seq<Posting>)
    requires Ordered(seg) && PostingsOk(rows)
    ensures Ordered(SetRows(seg, key, rows))
  {
    var one := TermPostings(key, rows);
    if seg == [] {
      assert [one] == [one] + seg;
      OrderedCons(one, seg);
    } else {
      LexFlip(key, seg[0].key);
      match LexCmp(key, seg[0].key)
      case Less =>
        AboveTrans(key, seg[0].key, seg[1..]);
        OrderedCons(one, seg);
      case Equal =>
        LexEqual(key, seg[0].key);
        OrderedCons(one, seg[1..]);
      case Greater =>
        SetRowsOrdered(seg[1..], key, rows);
        SetRowsAbove(seg[0].key, seg[1..], key, rows);
        OrderedCons(seg[0], SetRows(seg[1..], key, rows));
    }
  }

  /** Insert a posting for a term. */
  function Put(seg: seq<TermPostings>, key: bytes, p: Posting): seq<TermPostings> {
    SetRows(seg, key, PutRow(Rows(seg, key), p))
  }

  lemma {:induction false} PutLookup(seg: seq<TermPostings>, key: bytes, p: Posting, k: bytes, r: int)
    ensures Lookup(Put(seg, key, p), k, r) == if k == key && r == p.rowid then Some(p) else Lookup(seg, k, r)
  {
    SetRowsRows(seg, key, PutRow(Rows(seg, key), p), k);
    PutRowAt(Rows(seg, key), p, r);
  }

  lemma {:induction false} PutOrdered(seg: seq<TermPostings>, key: bytes, p: Posting)
    requires Ordered(seg) && PostingOk(p)
    ensures Ordered(Put(seg, key, p))
  {
    RowsOk(seg, key);
    PutRowOk(Rows(seg, key), p);
    SetRowsOrdered(seg, key, PutRow(Rows(seg, key), p));
  }
}
