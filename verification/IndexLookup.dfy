/** Building an index and looking records up in it, with the order that indexes really have: what was inserted
    is what a lookup finds. */
module IndexLookup {
  import opened Bytes
  import opened Records
  import opened IndexTree
  import opened Pager
  import opened IndexInsert
  import opened IndexScan

  // ----- What a run of insertions leaves

  lemma {:induction false} InsertedFrom(s: seq<Entry>, e: Entry, cmp: Comparator, x: Entry)
    requires x in InsertSorted(s, e, cmp)
    ensures x == e || x in s
  {
    if s != [] && cmp(e.rec, s[0].rec) == Greater && x != s[0] {
      InsertedFrom(s[1..], e, cmp, x);
    }
  }

  lemma {:induction false} InsertedKeeps(s: seq<Entry>, e: Entry, cmp: Comparator, x: Entry)
    requires x in s
    ensures x in InsertSorted(s, e, cmp)
  {
    if cmp(e.rec, s[0].rec) == Greater && x != s[0] {
      InsertedKeeps(s[1..], e, cmp, x);
    }
  }

  // The new entry is there, or one with an equal record was.
  lemma {:induction false} InsertedHas(s: seq<Entry>, e: Entry, cmp: Comparator)
    ensures e in InsertSorted(s, e, cmp) || exists x :: x in s && cmp(e.rec, x.rec) == Equal
  {
    if s != [] && cmp(e.rec, s[0].rec) == Greater {
      InsertedHas(s[1..], e, cmp);
    } else if s != [] && cmp(e.rec, s[0].rec) == Equal {
      assert s[0] in s;
    }
  }

  lemma {:induction false} AllFrom(es: seq<Entry>, cmp: Comparator, x: Entry)
    requires x in InsertAll([], es, cmp)
    ensures x in es
  {
    if es != [] {
      var n := |es| - 1;
      InsertedFrom(InsertAll([], es[..n], cmp), es[n], cmp, x);
      if x != es[n] {
        AllFrom(es[..n], cmp, x);
      }
    }
  }

  /** Entry `i` is there, or an earlier one with an equal record. */
  ghost predicate Kept(s: seq<Entry>, es: seq<Entry>, i: nat, cmp: Comparator) {
    i < |es| && exists j :: 0 <= j <= i && es[j] in s && cmp(es[i].rec, es[j].rec) == Equal
  }

  // An entry kept so far is kept by the next insertion.
  lemma {:induction false} KeptOn(front: seq<Entry>, es: seq<Entry>, e: Entry, i: nat, cmp: Comparator)
    requires Kept(front, es, i, cmp)
    ensures Kept(InsertSorted(front, e, cmp), es + [e], i, cmp)
  {
    var j :| 0 <= j <= i && es[j] in front && cmp(es[i].rec, es[j].rec) == Equal;
    InsertedKeeps(front, e, cmp, es[j]);
    assert (es + [e])[j] == es[j] && (es + [e])[i] == es[i];
  }

  // The entry just inserted is kept.
  lemma {:induction false} KeptNew(front: seq<Entry>, es: seq<Entry>, e: Entry, cmp: Comparator)
    requires TotalPreorder(cmp) && forall x :: x in front ==> x in es
    ensures Kept(InsertSorted(front, e, cmp), es + [e], |es|, cmp)
  {
    var now, all := InsertSorted(front, e, cmp), es + [e];
    InsertedHas(front, e, cmp);
    if e in now {
      assert cmp(e.rec, e.rec) == cmp(e.rec, e.rec).Reverse();
      assert all[|es|] == e;
    } else {
      var x :| x in front && cmp(e.rec, x.rec) == Equal;
      InsertedKeeps(front, e, cmp, x);
      var j :| 0 <= j < |es| && es[j] == x;
      assert all[j] == x && all[|es|] == e;
    }
  }

  lemma {:induction false} AllKept(es: seq<Entry>, cmp: Comparator, i: nat)
    requires TotalPreorder(cmp) && i < |es|
    ensures Kept(InsertAll([], es, cmp), es, i, cmp)
  {
    var n := |es| - 1;
    var front := InsertAll([], es[..n], cmp);
    assert es == es[..n] + [es[n]];
    if i < n {
      AllKept(es[..n], cmp, i);
      KeptOn(front, es[..n], es[n], i, cmp);
    } else {
      forall x | x in front
        ensures x in es[..n]
      {
        AllFrom(es[..n], cmp, x);
      }
      KeptNew(front, es[..n], es[n], cmp);
    }
  }

  // ----- What a lookup finds

  lemma {:induction false} MatchIn(s: seq<Entry>, v: Verdict, rec: Record)
    ensures rec in Matches(s, v) <==> exists x :: x in s && v(x) == Equal && x.rec == rec
  {
    if s != [] {
      MatchIn(s[1..], v, rec);
      if x :| x in s && v(x) == Equal && x.rec == rec {
        assert x == s[0] || x in s[1..];
      }
    }
  }

  lemma {:induction false} EqualRecordsMatch(key: Record, a: Record, b: Record, info: KeyInfo)
    requires |key| <= |a| && |key| <= |b| && CmpRecords(a, b, info) == Equal && PrefixCmp(key, a, info) == Equal
    ensures PrefixCmp(key, b, info) == Equal
  {
    CmpRecordsIsTotalPreorder(info);
    assert IndexOrder(info)(b, a) == IndexOrder(info)(a, b).Reverse();
    PrefixMonotone(key, a, b, info);
    PrefixMonotone(key, b, a, info);
  }

  /** The rowids are those of inserted entries that match. */
  ghost predicate OnlyInserted(rowids: seq<int>, es: seq<Entry>, key: Record, info: KeyInfo) {
    forall r :: r in rowids ==> exists j :: 0 <= j < |es| && IsHit(es[j], key, info) && RowidOf(es[j].rec) == r
  }

  ghost predicate IsHit(e: Entry, key: Record, info: KeyInfo) {
    PrefixCmp(key, e.rec, info) == Equal
  }

  /** Every inserted entry that matches is found, or an earlier one with an equal record. */
  ghost predicate EveryHit(rowids: seq<int>, es: seq<Entry>, key: Record, info: KeyInfo) {
    forall i :: 0 <= i < |es| && IsHit(es[i], key, info) ==> FoundFor(rowids, es, i, info)
  }

  ghost predicate FoundFor(rowids: seq<int>, es: seq<Entry>, i: nat, info: KeyInfo) {
    && i < |es|
    && exists j :: 0 <= j <= i && RowidOf(es[j].rec) in rowids && CmpRecords(es[i].rec, es[j].rec, info) == Equal
  }

  lemma {:induction false} RowidFound(recs: seq<Record>, rec: Record)
    requires rec in recs
    ensures RowidOf(rec) in RowidsOf(recs)
  {
    var k :| 0 <= k < |recs| && recs[k] == rec;
    assert RowidsOf(recs)[k] == RowidOf(rec);
  }

  lemma {:induction false} HitFound(es: seq<Entry>, key: Record, info: KeyInfo, i: nat)
    requires i < |es| && IsHit(es[i], key, info) && Wide(es, key)
    ensures FoundFor(MatchingRowids(InsertAll([], es, IndexOrder(info)), key, info), es, i, info)
  {
    var cmp, s := IndexOrder(info), InsertAll([], es, IndexOrder(info));
    CmpRecordsIsTotalPreorder(info);
    AllKept(es, cmp, i);
    var j :| 0 <= j <= i && es[j] in s && cmp(es[i].rec, es[j].rec) == Equal;
    EqualRecordsMatch(key, es[i].rec, es[j].rec, info);
    MatchIn(s, KeyVerdict(key, info), es[j].rec);
    RowidFound(Matches(s, KeyVerdict(key, info)), es[j].rec);
  }

  lemma {:induction false} HitInserted(es: seq<Entry>, key: Record, info: KeyInfo)
    ensures OnlyInserted(MatchingRowids(InsertAll([], es, IndexOrder(info)), key, info), es, key, info)
  {
    var s, v := InsertAll([], es, IndexOrder(info)), KeyVerdict(key, info);
    var recs := Matches(s, v);
    forall r | r in RowidsOf(recs)
      ensures exists j :: 0 <= j < |es| && IsHit(es[j], key, info) && RowidOf(es[j].rec) == r
    {
      var k :| 0 <= k < |recs| && RowidsOf(recs)[k] == r;
      MatchIn(s, v, recs[k]);
      var x :| x in s && v(x) == Equal && x.rec == recs[k];
      AllFrom(es, IndexOrder(info), x);
      var j :| 0 <= j < |es| && es[j] == x;
      assert IsHit(es[j], key, info);
    }
  }

  // Entries with the columns of the key keep them in the index.
  lemma {:induction false} InsertedKeyed(es: seq<Entry>, info: KeyInfo, width: nat)
    requires forall k :: 0 <= k < |es| ==> width <= |es[k].rec|
    requires Sorted(InsertAll([], es, IndexOrder(info)), IndexOrder(info))
    ensures Keyed(InsertAll([], es, IndexOrder(info)), info, width)
  {
    var s := InsertAll([], es, IndexOrder(info));
    forall i | 0 <= i < |s|
      ensures width <= |s[i].rec|
    {
      AllFrom(es, IndexOrder(info), s[i]);
    }
  }

  /** Every entry has the columns of the key. */
  ghost predicate Wide(es: seq<Entry>, key: Record) {
    forall k :: 0 <= k < |es| ==> |key| <= |es[k].rec|
  }

  /** Build an index and look a key up. Where the matches can be found, exactly the matching entries of the index
      are, all of them inserted. If every entry has the columns of the key, every matching one is found, or an
      earlier one with an equal record. Only the depth limit ends the run early. */
  method BuildAndSeek(wp: WritePager, es: seq<Entry>, key: Record, info: KeyInfo)
    returns (rowids: seq<int>, n: nat, ghost h: nat)
    requires wp.Valid() && CellsOk(es, wp.usable)
    modifies wp
    ensures wp.Valid() && n <= |es| && (n < |es| ==> h > MAX_DEPTH)
    ensures Findable(InsertAll([], es[..n], IndexOrder(info)), KeyVerdict(key, info)) ==>
              && rowids == MatchingRowids(InsertAll([], es[..n], IndexOrder(info)), key, info)
              && OnlyInserted(rowids, es[..n], key, info)
    ensures Wide(es, key) ==> OnlyInserted(rowids, es[..n], key, info) && EveryHit(rowids, es[..n], key, info)
  {
    CmpRecordsIsTotalPreorder(info);
    var root;
    ghost var t;
    root, n, t, h := BuildIndex(wp, es, IndexOrder(info));
    ShapeIsLinked(t, h, wp.usable);
    ghost var done := es[..n];
    rowids := IndexSeekRowids(wp.pages, root, key, info, t);
    HitInserted(done, key, info);
    if Wide(es, key) {
      InsertedKeyed(done, info, |key|);
      forall i | 0 <= i < |done| && IsHit(done[i], key, info)
        ensures FoundFor(rowids, done, i, info)
      {
        HitFound(done, key, info, i);
      }
    }
  }
}
