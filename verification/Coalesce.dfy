/** Folding two changes of the same row into one. */
module Coalesce {
  import opened Bytes
  import opened Changeset
  import opened Invert
  import opened Applying

  // ----- The records of a folded update, from its old and new values

  function FoldedWas(o: Row, n: Row, pk: bytes): (r: Row)
    requires |o| == |n|
    ensures |r| == |o|
  {
    seq(|o|, i requires 0 <= i < |o| => if IsKey(pk, i) || o[i] != n[i] then o[i] else OMIT)
  }

  function FoldedNow(o: Row, n: Row, pk: bytes): (r: Row)
    requires |o| == |n|
    ensures |r| == |o|
  {
    seq(|o|, i requires 0 <= i < |o| => if IsKey(pk, i) || o[i] == n[i] then OMIT else n[i])
  }

  // Some column outside the key changes.
  predicate Required(o: Row, n: Row, pk: bytes)
    requires |o| == |n|
  {
    exists i :: 0 <= i < |o| && !IsKey(pk, i) && o[i] != n[i]
  }

  function FoldUpdate(o: Row, n: Row, pk: bytes): Option<seq<bytes>>
    requires |o| == |n|
  {
    if Required(o, n, pk) then Some(FoldedWas(o, n, pk) + FoldedNow(o, n, pk)) else None
  }

  // A folded change is indirect only if both are.
  function BothIndirect(a: byte, b: byte): byte {
    if a != 0 && b != 0 then 1 else 0
  }

  ghost predicate SameRow(e: Located, c: Located) {
    e.WellFormed() && c.WellFormed() && e.table == c.table && e.pk == c.pk && e.Id() == c.Id()
  }

  /** Fold `c` into the earlier change `e` of the same row; nothing is left when they cancel out. The
      combinations that no database can go through keep the earlier change. */
  function Merge(e: Located, c: Located): Option<Located>
    requires e.WellFormed() && c.WellFormed() && e.pk == c.pk
  {
    var both := BothIndirect(c.indirect, e.indirect);
    if e.op == OP_INSERT && c.op == OP_INSERT then Some(e)
    else if e.op == OP_UPDATE && c.op == OP_INSERT then Some(e)
    else if e.op == OP_DELETE && c.op != OP_INSERT then Some(e)
    else if e.op == OP_INSERT && c.op == OP_DELETE then None
    else if e.op == OP_INSERT then
      Some(e.(indirect := both, fields := Overlay(e.fields, c.Now())))
    else if e.op == OP_DELETE then
      match FoldUpdate(e.fields, c.fields, e.pk)
      case None => None
      case Some(fields) => Some(e.(op := OP_UPDATE, indirect := both, fields := fields))
    else if c.op == OP_UPDATE then
      match FoldUpdate(Overlay(c.Was(), e.Was()), Overlay(e.Now(), c.Now()), e.pk)
      case None => None
      case Some(fields) => Some(e.(indirect := both, fields := fields))
    else
      Some(e.(op := OP_DELETE, indirect := both, fields := Overlay(c.fields, e.Was())))
  }

  // ----- What the fold means

  // `m` does to the row what leads from `x0` to `x2`.
  ghost predicate Folds(m: Option<Located>, c: Located, x0: Option<Row>, x2: Option<Row>)
    requires c.WellFormed()
  {
    match m
    case None => x0 == x2
    case Some(f) => Canonical(f) && f.table == c.table && f.pk == c.pk && f.Id() == c.Id() && Effect(f, x0) == Done(x2)
  }

  /** An update folded from values `o` and `n` that are the row's where they differ leads from the row
      to the row with the new values. */
  lemma {:induction false} FoldUpdateEffect(o: Row, n: Row, row: Row, end: Row, c: Located)
    requires c.WellFormed() && |c.pk| == |o| == |n| == |row| == |end|
    requires forall i :: 0 <= i < |o| ==> FoldedColumn(c.pk, i, o[i], n[i], row[i], end[i])
    requires KeyOf(o, c.pk) == KeyOf(c.fields, c.pk)
    ensures match FoldUpdate(o, n, c.pk)
            case None => row == end
            case Some(fields) =>
              forall ind: byte :: Folds(Some(Located(c.table, c.pk, OP_UPDATE, ind, fields)), c, Some(row), Some(end))
  {
    var pk := c.pk;
    if Required(o, n, pk) {
      var was, now := FoldedWas(o, n, pk), FoldedNow(o, n, pk);
      forall ind: byte
        ensures Folds(Some(Located(c.table, c.pk, OP_UPDATE, ind, was + now)), c, Some(row), Some(end))
      {
        var f := Located(c.table, pk, OP_UPDATE, ind, was + now);
        assert f.Was() == was && f.Now() == now;
        forall i | 0 <= i < |pk|
          ensures UpdateColumn(pk, i, was[i], now[i]) && (was[i] == OMIT || was[i] == row[i])
          ensures Overlay(row, now)[i] == end[i]
        {
          assert FoldedColumn(pk, i, o[i], n[i], row[i], end[i]);
        }
        assert Overlay(row, now) == end;
        SameKey(f.fields, o, pk);
      }
    } else {
      forall i | 0 <= i < |row|
        ensures row[i] == end[i]
      {
        assert FoldedColumn(pk, i, o[i], n[i], row[i], end[i]);
      }
    }
  }

  // What the old value `o` and the new value `n` say about a column going from `r` to `e`.
  ghost predicate FoldedColumn(pk: bytes, i: nat, o: bytes, n: bytes, r: bytes, e: bytes) {
    if IsKey(pk, i) then o == r == e && o != OMIT
    else if o == n then r == e
    else o == r && n == e && o != OMIT && n != OMIT
  }

  lemma {:induction false} MergeInsertUpdate(e: Located, c: Located, x0: Option<Row>, x1: Option<Row>, x2: Option<Row>)
    requires Canonical(e) && Canonical(c) && SameRow(e, c) && e.op == OP_INSERT && c.op == OP_UPDATE
    requires Effect(e, x0) == Done(x1) && Effect(c, x1) == Done(x2)
    ensures Folds(Merge(e, c), c, x0, x2)
  {
    var f := Merge(e, c).value;
    forall i | 0 <= i < |c.pk|
      ensures f.fields[i] != OMIT && (IsKey(c.pk, i) ==> f.fields[i] == e.fields[i])
    {
      assert UpdateColumn(c.pk, i, c.Was()[i], c.Now()[i]);
    }
    SameKey(f.fields, e.fields, c.pk);
  }

  lemma {:induction false} MergeDeleteInsert(e: Located, c: Located, x0: Option<Row>, x1: Option<Row>, x2: Option<Row>)
    requires Canonical(e) && Canonical(c) && SameRow(e, c) && e.op == OP_DELETE && c.op == OP_INSERT
    requires Effect(e, x0) == Done(x1) && Effect(c, x1) == Done(x2)
    ensures Folds(Merge(e, c), c, x0, x2)
  {
    SameKey(e.fields, c.fields, c.pk);
    FoldUpdateEffect(e.fields, c.fields, e.fields, c.fields, c);
  }

  lemma {:induction false} MergeUpdates(e: Located, c: Located, x0: Option<Row>, x1: Option<Row>, x2: Option<Row>)
    requires Canonical(e) && Canonical(c) && SameRow(e, c) && e.op == OP_UPDATE && c.op == OP_UPDATE
    requires Effect(e, x0) == Done(x1) && Effect(c, x1) == Done(x2)
    ensures Folds(Merge(e, c), c, x0, x2)
  {
    var row, mid, end := x0.value, x1.value, x2.value;
    var o, n := Overlay(c.Was(), e.Was()), Overlay(e.Now(), c.Now());
    SameKey(e.fields, c.fields, c.pk);
    forall i | 0 <= i < |row|
      ensures FoldedColumn(c.pk, i, o[i], n[i], row[i], end[i])
      ensures IsKey(c.pk, i) ==> o[i] == c.fields[i]
    {
      assert UpdateColumn(c.pk, i, c.Was()[i], c.Now()[i]) && UpdateColumn(e.pk, i, e.Was()[i], e.Now()[i]);
    }
    SameKey(o, c.fields, c.pk);
    FoldUpdateEffect(o, n, row, end, c);
  }

  lemma {:induction false} MergeUpdateDelete(e: Located, c: Located, x0: Option<Row>, x1: Option<Row>, x2: Option<Row>)
    requires Canonical(e) && Canonical(c) && SameRow(e, c) && e.op == OP_UPDATE && c.op == OP_DELETE
    requires Effect(e, x0) == Done(x1) && Effect(c, x1) == Done(x2)
    ensures Folds(Merge(e, c), c, x0, x2)
  {
    var f, row := Merge(e, c).value, x0.value;
    SameKey(e.fields, c.fields, c.pk);
    forall i | 0 <= i < |row|
      ensures f.fields[i] == row[i] && f.fields[i] != OMIT && (IsKey(c.pk, i) ==> f.fields[i] == e.fields[i])
    {
      assert UpdateColumn(e.pk, i, e.Was()[i], e.Now()[i]);
    }
    assert f.fields == row;
    SameKey(f.fields, e.fields, c.pk);
  }

  /** Folding two changes that take a row from `x0` to `x1` to `x2` gives a change that takes it from
      `x0` to `x2`, or nothing when they are equal. */
  lemma {:induction false} MergeMeans(e: Located, c: Located, x0: Option<Row>, x1: Option<Row>, x2: Option<Row>)
    requires Canonical(e) && Canonical(c) && SameRow(e, c)
    requires Effect(e, x0) == Done(x1) && Effect(c, x1) == Done(x2)
    ensures Folds(Merge(e, c), c, x0, x2)
  {
    if e.op == OP_INSERT && c.op == OP_UPDATE {
      MergeInsertUpdate(e, c, x0, x1, x2);
    } else if e.op == OP_DELETE {
      MergeDeleteInsert(e, c, x0, x1, x2);
    } else if e.op == OP_UPDATE && c.op == OP_UPDATE {
      MergeUpdates(e, c, x0, x1, x2);
    } else if e.op == OP_UPDATE {
      MergeUpdateDelete(e, c, x0, x1, x2);
    }
  }

  // ----- The fold keeps the form and the row, whether or not the changes fit together

  // A folded change of the same row as `c`, in canonical form.
  ghost predicate Keeps(m: Option<Located>, c: Located)
    requires c.WellFormed()
  {
    m.Some? ==> Canonical(m.value) && m.value.table == c.table && m.value.pk == c.pk && m.value.Id() == c.Id()
  }

  lemma {:induction false} FoldUpdateKeeps(o: Row, n: Row, c: Located, indirect: byte)
    requires c.WellFormed() && |c.pk| == |o| == |n| && KeyOf(o, c.pk) == KeyOf(c.fields, c.pk)
    requires forall i :: 0 <= i < |o| ==> if IsKey(c.pk, i) then o[i] != OMIT else (o[i] == OMIT <==> n[i] == OMIT)
    ensures FoldUpdate(o, n, c.pk).Some? ==>
              Keeps(Some(Located(c.table, c.pk, OP_UPDATE, indirect, FoldUpdate(o, n, c.pk).value)), c)
  {
    var pk, was, now := c.pk, FoldedWas(o, n, c.pk), FoldedNow(o, n, c.pk);
    var f := Located(c.table, pk, OP_UPDATE, indirect, was + now);
    assert f.Was() == was && f.Now() == now;
    forall i | 0 <= i < |pk|
      ensures UpdateColumn(pk, i, was[i], now[i])
    {
    }
    SameKey(f.fields, o, pk);
  }

  lemma {:induction false} MergeUpdatesKeep(e: Located, c: Located)
    requires Canonical(e) && Canonical(c) && SameRow(e, c) && e.op == OP_UPDATE && c.op == OP_UPDATE
    ensures Keeps(Merge(e, c), c)
  {
    var o, n := Overlay(c.Was(), e.Was()), Overlay(e.Now(), c.Now());
    SameKey(e.fields, c.fields, c.pk);
    forall i | 0 <= i < |o|
      ensures if IsKey(c.pk, i) then o[i] != OMIT && o[i] == c.fields[i] else (o[i] == OMIT <==> n[i] == OMIT)
    {
      assert UpdateColumn(c.pk, i, c.Was()[i], c.Now()[i]) && UpdateColumn(e.pk, i, e.Was()[i], e.Now()[i]);
    }
    SameKey(o, c.fields, c.pk);
    FoldUpdateKeeps(o, n, c, BothIndirect(c.indirect, e.indirect));
  }

  lemma {:induction false} MergeOverlaysKeep(e: Located, c: Located)
    requires Canonical(e) && Canonical(c) && SameRow(e, c)
    requires (e.op == OP_INSERT && c.op == OP_UPDATE) || (e.op == OP_UPDATE && c.op == OP_DELETE)
    ensures Keeps(Merge(e, c), c)
  {
    var u := if e.op == OP_UPDATE then e else c;
    var f := Merge(e, c).value;
    SameKey(e.fields, c.fields, c.pk);
    forall i | 0 <= i < |c.pk|
      ensures f.fields[i] != OMIT && (IsKey(c.pk, i) ==> f.fields[i] == e.fields[i])
    {
      assert UpdateColumn(u.pk, i, u.Was()[i], u.Now()[i]);
    }
    SameKey(f.fields, e.fields, c.pk);
  }

  lemma {:induction false} MergeKeeps(e: Located, c: Located)
    requires Canonical(e) && Canonical(c) && SameRow(e, c)
    ensures Keeps(Merge(e, c), c)
  {
    if e.op == OP_UPDATE && c.op == OP_UPDATE {
      MergeUpdatesKeep(e, c);
    } else if e.op == OP_DELETE && c.op == OP_INSERT {
      SameKey(e.fields, c.fields, c.pk);
      FoldUpdateKeeps(e.fields, c.fields, c, BothIndirect(c.indirect, e.indirect));
    } else if (e.op == OP_INSERT && c.op == OP_UPDATE) || (e.op == OP_UPDATE && c.op == OP_DELETE) {
      MergeOverlaysKeep(e, c);
    }
  }
}
