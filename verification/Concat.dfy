/** Concatenating changesets through an in-memory change group: per table, a hash of the coalesced
    changes. */
module Concat {
  import opened Bytes
  import opened Changeset
  import opened Applying
  import opened Coalesce
  import opened RecordBytes
  import opened Buckets

  // A change as the group keeps it: the record in its serialized form.
  datatype GroupChange = GroupChange(op: byte, indirect: byte, record: bytes)

  function FieldsOf(c: GroupChange, ncol: nat): seq<bytes> {
    match SplitRecord(c.record, FieldCount(c.op, ncol))
    case Corrupt => []
    case Ok(fields) => fields
  }

  /** The record is made of exactly the fields the operation calls for. */
  predicate ChangeOk(h: Header, c: GroupChange) {
    && |h.pk| == h.ncol && IsOp(c.op)
    && SplitRecord(c.record, FieldCount(c.op, h.ncol)).Ok? && Join(FieldsOf(c, h.ncol)) == c.record
  }

  function Meaning(h: Header, c: GroupChange): Located {
    Located(h.name, h.pk, c.op, c.indirect, FieldsOf(c, h.ncol))
  }

  lemma {:induction false} MeaningWellFormed(h: Header, c: GroupChange)
    requires ChangeOk(h, c)
    ensures Meaning(h, c).WellFormed() && AreFields(Meaning(h, c).fields)
  {
    SplitThenJoin(c.record, FieldCount(c.op, h.ncol));
  }

  // The change made of these fields.
  lemma {:induction false} Packed(h: Header, op: byte, indirect: byte, fields: seq<bytes>)
    requires |h.pk| == h.ncol && IsOp(op) && |fields| == FieldCount(op, h.ncol) && AreFields(fields)
    ensures var c := GroupChange(op, indirect, Join(fields));
            ChangeOk(h, c) && Meaning(h, c) == Located(h.name, h.pk, op, indirect, fields)
  {
    JoinThenSplit(fields, []);
    assert Join(fields) + [] == Join(fields);
  }

  // Every record starts with one field per column.
  lemma {:induction false} RecordStarts(h: Header, c: GroupChange)
    requires ChangeOk(h, c)
    ensures |FieldsOf(c, h.ncol)| >= h.ncol && Starts(c.record, FieldsOf(c, h.ncol)[..h.ncol])
  {
    var fs, n := FieldsOf(c, h.ncol), h.ncol;
    MeaningWellFormed(h, c);
    assert fs == fs[..n] + fs[n..];
    JoinCat(fs[..n], fs[n..]);
    JoinThenSplit(fs[..n], Join(fs[n..]));
  }

  // The two halves of an update's record.
  lemma {:induction false} Halves(h: Header, c: GroupChange)
    requires ChangeOk(h, c) && c.op == OP_UPDATE
    ensures var u := Meaning(h, c);
            && u.WellFormed() && AreFields(u.Was()) && AreFields(u.Now())
            && SplitRecord(c.record, h.ncol) == Ok(u.Was()) && |Join(u.Was())| <= |c.record|
            && Starts(c.record[..|Join(u.Was())|], u.Was()) && Starts(c.record[|Join(u.Was())|..], u.Now())
  {
    MeaningWellFormed(h, c);
    var u := Meaning(h, c);
    RecordStarts(h, c);
    assert u.fields == u.Was() + u.Now();
    JoinCat(u.Was(), u.Now());
    JoinThenSplit(u.Was(), []);
    JoinThenSplit(u.Now(), []);
    assert c.record[..|Join(u.Was())|] == Join(u.Was()) + [];
    assert c.record[|Join(u.Was())|..] == Join(u.Now()) + [];
  }

  lemma {:induction false} OverlayFields(a: Row, b: Row)
    requires |a| == |b| && AreFields(a) && AreFields(b)
    ensures AreFields(Overlay(a, b))
  {
  }

  lemma {:induction false} FoldedFields(o: Row, n: Row, pk: bytes)
    requires |o| == |n| && AreFields(o) && AreFields(n)
    ensures AreFields(FoldedWas(o, n, pk) + FoldedNow(o, n, pk))
  {
    OmitIsField();
  }

  // The result of folding, in serialized form.
  ghost predicate IsMerge(r: Option<GroupChange>, h: Header, m: Option<Located>) {
    match m
    case None => r.None?
    case Some(l) => r.Some? && ChangeOk(h, r.value) && Meaning(h, r.value) == l
  }

  /** An existing insert takes over the new values of a later update. */
  method MergeIntoInsert(h: Header, e: GroupChange, c: GroupChange) returns (r: Option<GroupChange>)
    requires ChangeOk(h, e) && ChangeOk(h, c) && e.op == OP_INSERT && c.op == OP_UPDATE
    ensures Meaning(h, e).WellFormed() && Meaning(h, c).WellFormed()
    ensures IsMerge(r, h, Merge(Meaning(h, e), Meaning(h, c)))
  {
    Halves(h, c);
    MeaningWellFormed(h, e);
    ghost var le, lc := Meaning(h, e), Meaning(h, c);
    var half := |Join(SplitRecord(c.record, h.ncol).value)|;
    var out := MergeRecord(e.record, c.record[half..], h.ncol, le.fields, lc.Now());
    OverlayFields(le.fields, lc.Now());
    Packed(h, OP_INSERT, BothIndirect(c.indirect, e.indirect), Overlay(le.fields, lc.Now()));
    return Some(GroupChange(OP_INSERT, BothIndirect(c.indirect, e.indirect), out));
  }

  /** A delete and an insert become an update from the one row to the other. */
  method MergeIntoDelete(h: Header, e: GroupChange, c: GroupChange) returns (r: Option<GroupChange>)
    requires ChangeOk(h, e) && ChangeOk(h, c) && e.op == OP_DELETE && c.op == OP_INSERT
    ensures Meaning(h, e).WellFormed() && Meaning(h, c).WellFormed()
    ensures IsMerge(r, h, Merge(Meaning(h, e), Meaning(h, c)))
  {
    MeaningWellFormed(h, e);
    MeaningWellFormed(h, c);
    ghost var o, n := Meaning(h, e).fields, Meaning(h, c).fields;
    var out := MergeUpdate(Sources(e.record, None, c.record, None), h.pk, SourceFields(o, None, n, None));
    if out.None? {
      return None;
    }
    FoldedFields(o, n, h.pk);
    Packed(h, OP_UPDATE, BothIndirect(c.indirect, e.indirect), FoldedWas(o, n, h.pk) + FoldedNow(o, n, h.pk));
    return Some(GroupChange(OP_UPDATE, BothIndirect(c.indirect, e.indirect), out.value));
  }

  /** Two updates become one; what the earlier says about old values wins, and the later about new. */
  method MergeUpdates(h: Header, e: GroupChange, c: GroupChange) returns (r: Option<GroupChange>)
    requires ChangeOk(h, e) && ChangeOk(h, c) && e.op == OP_UPDATE && c.op == OP_UPDATE
    ensures Meaning(h, e).WellFormed() && Meaning(h, c).WellFormed()
    ensures IsMerge(r, h, Merge(Meaning(h, e), Meaning(h, c)))
  {
    Halves(h, e);
    Halves(h, c);
    ghost var le, lc := Meaning(h, e), Meaning(h, c);
    var halfE := |Join(SplitRecord(e.record, h.ncol).value)|;
    var halfC := |Join(SplitRecord(c.record, h.ncol).value)|;
    var s := Sources(c.record[..halfC], Some(e.record[..halfE]), e.record[halfE..], Some(c.record[halfC..]));
    var out := MergeUpdate(s, h.pk, SourceFields(lc.Was(), Some(le.Was()), le.Now(), Some(lc.Now())));
    if out.None? {
      return None;
    }
    ghost var o, n := Overlay(lc.Was(), le.Was()), Overlay(le.Now(), lc.Now());
    OverlayFields(lc.Was(), le.Was());
    OverlayFields(le.Now(), lc.Now());
    FoldedFields(o, n, h.pk);
    Packed(h, OP_UPDATE, BothIndirect(c.indirect, e.indirect), FoldedWas(o, n, h.pk) + FoldedNow(o, n, h.pk));
    return Some(GroupChange(OP_UPDATE, BothIndirect(c.indirect, e.indirect), out.value));
  }

  /** An update and a delete become a delete of the original row. */
  method MergeUpdateDelete(h: Header, e: GroupChange, c: GroupChange) returns (r: Option<GroupChange>)
    requires ChangeOk(h, e) && ChangeOk(h, c) && e.op == OP_UPDATE && c.op == OP_DELETE
    ensures Meaning(h, e).WellFormed() && Meaning(h, c).WellFormed()
    ensures IsMerge(r, h, Merge(Meaning(h, e), Meaning(h, c)))
  {
    Halves(h, e);
    MeaningWellFormed(h, c);
    ghost var le, lc := Meaning(h, e), Meaning(h, c);
    var half := |Join(SplitRecord(e.record, h.ncol).value)|;
    var out := MergeRecord(c.record, e.record[..half], h.ncol, lc.fields, le.Was());
    OverlayFields(lc.fields, le.Was());
    Packed(h, OP_DELETE, BothIndirect(c.indirect, e.indirect), Overlay(lc.fields, le.Was()));
    return Some(GroupChange(OP_DELETE, BothIndirect(c.indirect, e.indirect), out));
  }

  method MergeChange(h: Header, e: GroupChange, c: GroupChange) returns (r: Option<GroupChange>)
    requires ChangeOk(h, e) && ChangeOk(h, c)
    ensures Meaning(h, e).WellFormed() && Meaning(h, c).WellFormed()
    ensures IsMerge(r, h, Merge(Meaning(h, e), Meaning(h, c)))
  {
    MeaningWellFormed(h, e);
    MeaningWellFormed(h, c);
    if (e.op == OP_INSERT && c.op == OP_INSERT) || (e.op == OP_UPDATE && c.op == OP_INSERT)
       || (e.op == OP_DELETE && c.op == OP_UPDATE) || (e.op == OP_DELETE && c.op == OP_DELETE) {
      return Some(e);
    }
    if e.op == OP_INSERT && c.op == OP_DELETE {
      return None;
    }
    if e.op == OP_INSERT {
      r := MergeIntoInsert(h, e, c);
    } else if e.op == OP_DELETE {
      r := MergeIntoDelete(h, e, c);
    } else if c.op == OP_UPDATE {
      r := MergeUpdates(h, e, c);
    } else {
      r := MergeUpdateDelete(h, e, c);
    }
  }

  // ----- A table of the group

  /** The row a change is about. */
  function RowKey(h: Header, c: GroupChange): seq<bytes> {
    var fs := FieldsOf(c, h.ncol);
    if |h.pk| <= |fs| then KeyOf(fs, h.pk) else []
  }

  function KeyFn(h: Header): GroupChange -> seq<bytes> {
    c => RowKey(h, c)
  }

  function HashFn(h: Header): seq<bytes> -> nat {
    key => KeyHash(key, h.pk)
  }

  ghost predicate GoodChange(h: Header, c: GroupChange) {
    ChangeOk(h, c) && Canonical(Meaning(h, c))
  }

  /** One well-formed change per row, each in its bucket, and all of them counted. */
  ghost predicate TableOk(h: Header, bs: seq<seq<GroupChange>>, nentry: nat) {
    && |h.pk| == h.ncol
    && (forall c :: c in Spread(bs) ==> GoodChange(h, c))
    && InPlace(bs, KeyFn(h), HashFn(h)) && OnePerKey(Spread(bs), KeyFn(h))
    && nentry == |Spread(bs)|
  }

  ghost function One(r: Option<GroupChange>): multiset<GroupChange> {
    if r.Some? then multiset{r.value} else multiset{}
  }

  // The change `e` of the same row makes way for what folding `c` into it leaves.
  ghost predicate Replaces(h: Header, m: multiset<GroupChange>, c: GroupChange, e: GroupChange,
                           r: Option<GroupChange>, after: multiset<GroupChange>) {
    && e in m && GoodChange(h, e) && GoodChange(h, c) && RowKey(h, e) == RowKey(h, c)
    && IsMerge(r, h, Merge(Meaning(h, e), Meaning(h, c))) && after == m - multiset{e} + One(r)
  }

  /** The contents after `c` has been added. */
  ghost predicate AddsTo(h: Header, m: multiset<GroupChange>, c: GroupChange, after: multiset<GroupChange>) {
    if forall e :: e in m ==> RowKey(h, e) != RowKey(h, c) then after == m + multiset{c}
    else exists e, r :: Replaces(h, m, c, e, r, after)
  }

  lemma {:induction false} SameKeySameRow(h: Header, e: GroupChange, c: GroupChange)
    requires ChangeOk(h, e) && ChangeOk(h, c) && RowKey(h, e) == RowKey(h, c)
    ensures SameRow(Meaning(h, e), Meaning(h, c))
  {
    MeaningWellFormed(h, e);
    MeaningWellFormed(h, c);
  }

  lemma {:induction false} MergedIsGood(h: Header, e: GroupChange, c: GroupChange, r: GroupChange)
    requires GoodChange(h, e) && GoodChange(h, c) && RowKey(h, e) == RowKey(h, c)
    requires IsMerge(Some(r), h, Merge(Meaning(h, e), Meaning(h, c)))
    ensures GoodChange(h, r) && RowKey(h, r) == RowKey(h, c)
  {
    SameKeySameRow(h, e, c);
    MergeKeeps(Meaning(h, e), Meaning(h, c));
    MeaningWellFormed(h, r);
    MeaningWellFormed(h, c);
  }

  // Adding to a table without a change of that row.
  lemma {:induction false} AddedNew(h: Header, bs: seq<seq<GroupChange>>, nentry: nat, c: GroupChange)
    requires |bs| > 0 && TableOk(h, bs, nentry) && GoodChange(h, c)
    requires forall e :: e in bs[KeyHash(RowKey(h, c), h.pk) % |bs|] ==> RowKey(h, e) != RowKey(h, c)
    ensures var i := KeyHash(RowKey(h, c), h.pk) % |bs|;
            var after := bs[i := [c] + bs[i]];
            && TableOk(h, after, nentry + 1)
            && (forall e :: e in Spread(bs) ==> RowKey(h, e) != RowKey(h, c))
            && Spread(after) == Spread(bs) + multiset{c}
  {
    var key, hash := KeyFn(h), HashFn(h);
    assert forall e :: key(e) == RowKey(h, e);
    NotElsewhere(bs, key, hash, RowKey(h, c));
    Prepended(bs, key, hash, c);
    OneMore(Spread(bs), key, c);
  }

  lemma {:induction false} TakenOut(h: Header, bs: seq<seq<GroupChange>>, nentry: nat, i: nat, j: nat)
    requires TableOk(h, bs, nentry) && i < |bs| && j < |bs[i]|
    ensures var e, after := bs[i][j], bs[i := bs[i][..j] + bs[i][j + 1..]];
            && nentry > 0 && TableOk(h, after, nentry - 1)
            && e in Spread(bs) && GoodChange(h, e) && Spread(after) == Spread(bs) - multiset{e}
            && (forall x :: x in Spread(after) ==> RowKey(h, x) != RowKey(h, e))
  {
    var key, hash := KeyFn(h), HashFn(h);
    Removed(bs, key, hash, i, j);
    OneLess(Spread(bs), key, bs[i][j]);
    assert forall x :: key(x) == RowKey(h, x);
    assert |Spread(bs) - multiset{bs[i][j]}| == |Spread(bs)| - 1;
  }

  method SameRowKey(h: Header, e: GroupChange, c: GroupChange) returns (same: bool)
    requires ChangeOk(h, e) && ChangeOk(h, c)
    ensures same <==> RowKey(h, e) == RowKey(h, c)
  {
    RecordStarts(h, e);
    RecordStarts(h, c);
    KeyOfFront(FieldsOf(e, h.ncol), h.pk);
    KeyOfFront(FieldsOf(c, h.ncol), h.pk);
    same := PkEqual(e.record, c.record, h.pk, FieldsOf(e, h.ncol)[..h.ncol], FieldsOf(c, h.ncol)[..h.ncol]);
  }

  class ConcatTable {
    const hdr: Header
    var buckets: seq<seq<GroupChange>>
    var nentry: nat

    ghost predicate Valid()
      reads this
    {
      TableOk(hdr, buckets, nentry)
    }

    ghost function Contents(): multiset<GroupChange>
      reads this
    {
      Spread(buckets)
    }

    constructor (h: Header)
      requires |h.pk| == h.ncol
      ensures Valid() && hdr == h && buckets == [] && nentry == 0
    {
      hdr, buckets, nentry := h, [], 0;
    }

    /** Make room: 256 buckets at first, twice as many whenever half are taken. */
    method MaybeGrow()
      requires Valid()
      modifies this
      ensures Valid() && |buckets| > 0 && Contents() == old(Contents()) && nentry == old(nentry)
    {
      var n := |buckets|;
      if n == 0 || nentry >= n / 2 {
        buckets := Regrow(buckets, KeyFn(hdr), HashFn(hdr), if n == 0 then 256 else n * 2);
      }
    }

    // The position in bucket `i` of a change of the same row.
    method Find(i: nat, c: GroupChange) returns (j: Option<nat>)
      requires Valid() && i < |buckets| && ChangeOk(hdr, c)
      ensures j.Some? ==> j.value < |buckets[i]| && RowKey(hdr, buckets[i][j.value]) == RowKey(hdr, c)
      ensures j.None? ==> forall e :: e in buckets[i] ==> RowKey(hdr, e) != RowKey(hdr, c)
    {
      for k := 0 to |buckets[i]|
        invariant forall l :: 0 <= l < k ==> RowKey(hdr, buckets[i][l]) != RowKey(hdr, c)
      {
        EntryOk(hdr, buckets, nentry, i, k);
        var same := SameRowKey(hdr, buckets[i][k], c);
        if same {
          return Some(k);
        }
      }
      return None;
    }

    method BucketOf(c: GroupChange) returns (i: nat)
      requires |buckets| > 0 && ChangeOk(hdr, c)
      ensures i < |buckets| && i == KeyHash(RowKey(hdr, c), hdr.pk) % |buckets|
    {
      RecordStarts(hdr, c);
      KeyOfFront(FieldsOf(c, hdr.ncol), hdr.pk);
      i := Hash(c.record, hdr.pk, |buckets|, FieldsOf(c, hdr.ncol)[..hdr.ncol]);
    }

    // Put a change of a row that has none in front of its bucket.
    method Link(i: nat, c: GroupChange)
      requires Valid() && GoodChange(hdr, c) && i < |buckets| && i == KeyHash(RowKey(hdr, c), hdr.pk) % |buckets|
      requires forall e :: e in buckets[i] ==> RowKey(hdr, e) != RowKey(hdr, c)
      modifies this
      ensures Valid() && Contents() == old(Contents()) + multiset{c}
      ensures forall e :: e in old(Contents()) ==> RowKey(hdr, e) != RowKey(hdr, c)
    {
      AddedNew(hdr, buckets, nentry, c);
      buckets := buckets[i := [c] + buckets[i]];
      nentry := nentry + 1;
    }

    method Unlink(i: nat, j: nat) returns (e: GroupChange)
      requires Valid() && i < |buckets| && j < |buckets[i]|
      modifies this
      ensures Valid() && |buckets| == old(|buckets|) && e == old(buckets[i][j])
      ensures e in old(Contents()) && GoodChange(hdr, e) && Contents() == old(Contents()) - multiset{e}
      ensures forall x :: x in buckets[i] ==> RowKey(hdr, x) != RowKey(hdr, e)
    {
      e := buckets[i][j];
      TakenOut(hdr, buckets, nentry, i, j);
      nentry := nentry - 1;
      buckets := buckets[i := buckets[i][..j] + buckets[i][j + 1..]];
      forall x | x in buckets[i]
        ensures x in Spread(buckets)
      {
        InBucket(buckets, x);
      }
    }

    /** Add a change, folding it into the one the group already has for that row. */
    method Add(c: GroupChange)
      requires Valid() && GoodChange(hdr, c)
      modifies this
      ensures Valid() && AddsTo(hdr, old(Contents()), c, Contents())
    {
      ghost var before := Contents();
      MaybeGrow();
      var i := BucketOf(c);
      var j := Find(i, c);
      if j.None? {
        Link(i, c);
        return;
      }
      var e := Unlink(i, j.value);
      var r := MergeChange(hdr, e, c);
      if r.Some? {
        MergedIsGood(hdr, e, c, r.value);
        Link(i, r.value);
      }
      assert Replaces(hdr, before, c, e, r, Contents());
    }
  }

  lemma {:induction false} EntryOk(h: Header, bs: seq<seq<GroupChange>>, nentry: nat, i: nat, k: nat)
    requires TableOk(h, bs, nentry) && i < |bs| && k < |bs[i]|
    ensures GoodChange(h, bs[i][k])
  {
    InBucket(bs, bs[i][k]);
  }

  lemma {:induction false} KeyOfFront(fs: seq<bytes>, pk: bytes)
    requires |pk| <= |fs|
    ensures KeyOf(fs[..|pk|], pk) == KeyOf(fs, pk)
  {
  }
}
