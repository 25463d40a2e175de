/** What a changeset does to a database: the strict meaning, in which any conflict is a failure.

    A database is a map from row identities (table and primary key) to rows; fields keep their
    serialized form, as the comparison of keys and values in a changeset does. */
module Applying {
  import opened Bytes
  import opened Changeset
  import opened Invert

  type Row = seq<bytes>

  datatype RowId = RowId(table: bytes, key: seq<bytes>)

  type Db = map<RowId, Row>

  // A change together with the header it stands under.
  datatype Located = Located(table: bytes, pk: bytes, op: byte, indirect: byte, fields: seq<bytes>) {
    predicate WellFormed() {
      IsOp(op) && |fields| == FieldCount(op, |pk|)
    }

    function Was(): (r: Row)
      requires op == OP_UPDATE && WellFormed()
      ensures |r| == |pk|
    {
      fields[..|pk|]
    }

    function Now(): (r: Row)
      requires op == OP_UPDATE && WellFormed()
      ensures |r| == |pk|
    {
      fields[|pk|..]
    }

    function Id(): RowId
      requires WellFormed()
    {
      RowId(table, KeyOf(fields, pk))
    }
  }

  /** The key columns of a record, the other columns blanked out. */
  function KeyOf(fields: seq<bytes>, pk: bytes): (r: seq<bytes>)
    requires |pk| <= |fields|
    ensures |r| == |pk|
  {
    seq(|pk|, i requires 0 <= i < |pk| => if IsKey(pk, i) then fields[i] else OMIT)
  }

  lemma {:induction false} SameKey(a: seq<bytes>, b: seq<bytes>, pk: bytes)
    requires |pk| <= |a| && |pk| <= |b|
    ensures KeyOf(a, pk) == KeyOf(b, pk) <==> forall i :: 0 <= i < |pk| && IsKey(pk, i) ==> a[i] == b[i]
  {
    if KeyOf(a, pk) == KeyOf(b, pk) {
      forall i | 0 <= i < |pk| && IsKey(pk, i)
        ensures a[i] == b[i]
      {
        assert KeyOf(a, pk)[i] == KeyOf(b, pk)[i];
      }
    }
  }

  // ----- One row

  datatype Outcome = Done(row: Option<Row>) | Refused

  predicate Matches(row: Row, was: Row) {
    |row| == |was| && forall i :: 0 <= i < |row| ==> was[i] == OMIT || was[i] == row[i]
  }

  function Overlay(row: Row, now: Row): (r: Row)
    requires |row| == |now|
    ensures |r| == |row|
  {
    seq(|row|, i requires 0 <= i < |row| => if now[i] == OMIT then row[i] else now[i])
  }

  /** An insert wants the row absent, a delete wants it as recorded, an update wants its old values. */
  function Effect(c: Located, x: Option<Row>): Outcome
    requires c.WellFormed()
  {
    if c.op == OP_INSERT then if x.None? then Done(Some(c.fields)) else Refused
    else if c.op == OP_DELETE then if x == Some(c.fields) then Done(None) else Refused
    else if x.Some? && Matches(x.value, c.Was()) then Done(Some(Overlay(x.value, c.Now())))
    else Refused
  }

  // ----- A database

  function Get(db: Db, id: RowId): Option<Row> {
    if id in db then Some(db[id]) else None
  }

  function Put(db: Db, id: RowId, x: Option<Row>): Db {
    match x
    case None => db - {id}
    case Some(row) => db[id := row]
  }

  lemma {:induction false} GetPut(db: Db, id: RowId, x: Option<Row>, other: RowId)
    ensures Get(Put(db, id, x), other) == if other == id then x else Get(db, other)
  {
  }

  lemma {:induction false} SameDb(a: Db, b: Db)
    requires forall id :: Get(a, id) == Get(b, id)
    ensures a == b
  {
    forall id
      ensures id in a <==> id in b
      ensures id in a ==> a[id] == b[id]
    {
      assert Get(a, id) == Get(b, id);
    }
  }

  datatype Applied = Clean(db: Db) | Conflict

  ghost predicate AllWellFormed(cs: seq<Located>) {
    forall i :: 0 <= i < |cs| ==> cs[i].WellFormed()
  }

  /** Apply the changes in order. */
  function Apply(db: Db, cs: seq<Located>): Applied
    requires AllWellFormed(cs)
    decreases cs
  {
    if cs == [] then Clean(db)
    else
      match Effect(cs[0], Get(db, cs[0].Id()))
      case Refused => Conflict
      case Done(x) => Apply(Put(db, cs[0].Id(), x), cs[1..])
  }

  // ----- One change per row

  ghost predicate Distinct(cs: seq<Located>)
    requires AllWellFormed(cs)
  {
    forall i, j :: 0 <= i < j < |cs| ==> cs[i].Id() != cs[j].Id()
  }

  // Changes of different tables.
  lemma {:induction false} DistinctCat(a: seq<Located>, b: seq<Located>)
    requires AllWellFormed(a) && AllWellFormed(b) && Distinct(a) && Distinct(b)
    requires forall i, j :: 0 <= i < |a| && 0 <= j < |b| ==> a[i].table != b[j].table
    ensures AllWellFormed(a + b) && Distinct(a + b)
  {
    var c := a + b;
    assert forall i :: 0 <= i < |c| ==> c[i] == if i < |a| then a[i] else b[i - |a|];
    forall i, j | 0 <= i < j < |c|
      ensures c[i].Id() != c[j].Id()
    {
      if i < |a| && j >= |a| {
        assert a[i].table != b[j - |a|].table;
      }
    }
  }

  ghost predicate Touches(cs: seq<Located>, id: RowId)
    requires AllWellFormed(cs)
  {
    exists i :: 0 <= i < |cs| && cs[i].Id() == id
  }

  /** Row by row, the changes lead from `db` to `end`. */
  ghost predicate Leads(db: Db, cs: seq<Located>, end: Db)
    requires AllWellFormed(cs)
  {
    && (forall i :: 0 <= i < |cs| ==> Effect(cs[i], Get(db, cs[i].Id())) == Done(Get(end, cs[i].Id())))
    && (forall id :: !Touches(cs, id) ==> Get(end, id) == Get(db, id))
  }

  lemma {:induction false} TouchesStep(cs: seq<Located>, id: RowId)
    requires AllWellFormed(cs) && cs != []
    ensures Touches(cs, id) <==> cs[0].Id() == id || Touches(cs[1..], id)
  {
    if Touches(cs, id) && cs[0].Id() != id {
      var i :| 0 <= i < |cs| && cs[i].Id() == id;
      assert cs[1..][i - 1].Id() == id;
    }
    if Touches(cs[1..], id) {
      var i :| 0 <= i < |cs[1..]| && cs[1..][i].Id() == id;
      assert cs[i + 1].Id() == id;
    }
  }

  // Whether the other changes lead to `end` does not depend on the row of the first.
  lemma {:induction false} LeadsStep(db: Db, cs: seq<Located>, end: Db, x: Option<Row>)
    requires AllWellFormed(cs) && cs != [] && Distinct(cs) && Effect(cs[0], Get(db, cs[0].Id())) == Done(x)
    ensures Leads(db, cs, end) <==> Leads(Put(db, cs[0].Id(), x), cs[1..], end)
  {
    var db1, id0 := Put(db, cs[0].Id(), x), cs[0].Id();
    assert forall i :: 0 <= i < |cs| - 1 ==> cs[1..][i] == cs[i + 1] && cs[i + 1].Id() != id0;
    assert !Touches(cs[1..], id0);
    if Leads(db, cs, end) {
      forall i | 0 <= i < |cs| - 1
        ensures Effect(cs[1..][i], Get(db1, cs[1..][i].Id())) == Done(Get(end, cs[1..][i].Id()))
      {
        GetPut(db, id0, x, cs[i + 1].Id());
      }
      forall id | !Touches(cs[1..], id)
        ensures Get(end, id) == Get(db1, id)
      {
        TouchesStep(cs, id);
        GetPut(db, id0, x, id);
      }
    }
    if Leads(db1, cs[1..], end) {
      GetPut(db, id0, x, id0);
      forall i | 0 <= i < |cs|
        ensures Effect(cs[i], Get(db, cs[i].Id())) == Done(Get(end, cs[i].Id()))
      {
        if i > 0 {
          assert cs[1..][i - 1] == cs[i];
          GetPut(db, id0, x, cs[i].Id());
        }
      }
      forall id | !Touches(cs, id)
        ensures Get(end, id) == Get(db, id)
      {
        TouchesStep(cs, id);
        GetPut(db, id0, x, id);
      }
    }
  }

  /** With one change per row the order does not matter: applying is leading row by row. */
  lemma {:induction false} ApplyIsLeads(db: Db, cs: seq<Located>, end: Db)
    requires AllWellFormed(cs) && Distinct(cs)
    ensures Apply(db, cs) == Clean(end) <==> Leads(db, cs, end)
    decreases cs
  {
    if cs == [] {
      if Leads(db, cs, end) {
        SameDb(db, end);
      }
    } else {
      match Effect(cs[0], Get(db, cs[0].Id()))
      case Refused =>
      case Done(x) =>
        assert forall i :: 0 <= i < |cs| - 1 ==> cs[1..][i] == cs[i + 1];
        LeadsStep(db, cs, end, x);
        ApplyIsLeads(Put(db, cs[0].Id(), x), cs[1..], end);
    }
  }

  // ----- Changesets

  /** The form recorded changes have: inserts and deletes give the whole row; an update gives the old
      value of every key column and both values of the columns it changes. */
  predicate Canonical(c: Located) {
    && c.WellFormed()
    && if c.op == OP_UPDATE then
         forall i :: 0 <= i < |c.pk| ==> UpdateColumn(c.pk, i, c.Was()[i], c.Now()[i])
       else
         forall i :: 0 <= i < |c.pk| ==> c.fields[i] != OMIT
  }

  predicate UpdateColumn(pk: bytes, i: nat, was: bytes, now: bytes) {
    if IsKey(pk, i) then was != OMIT && now == OMIT else (was == OMIT <==> now == OMIT)
  }

  ghost predicate AllCanonical(cs: seq<Located>) {
    forall i :: 0 <= i < |cs| ==> Canonical(cs[i])
  }

  const NO_TABLE := Header(0, [], [], [])

  /** The changes of a changeset, each under its table. */
  function Locate(items: seq<Item>, h: Header): seq<Located>
    decreases items
  {
    if items == [] then []
    else
      match items[0]
      case Head(hdr) => Locate(items[1..], hdr)
      case Change(op, indirect, fields) =>
        [Located(h.name, h.pk, op, indirect, fields)] + Locate(items[1..], h)
  }

  lemma {:induction false} LocateWellFormed(items: seq<Item>, h: Header)
    requires AreItems(items, h.ncol) && |h.pk| == h.ncol
    ensures AllWellFormed(Locate(items, h))
    decreases items
  {
    if items != [] {
      match items[0]
      case Head(hdr) => LocateWellFormed(items[1..], hdr);
      case Change(op, indirect, fields) => LocateWellFormed(items[1..], h);
    }
  }

  /** The changes in the bytes of a changeset. */
  function ChangesOf(s: bytes): (cs: seq<Located>)
    requires Items(s, 0).Ok?
    ensures AllWellFormed(cs)
  {
    ParseThenUnparse(s, 0);
    LocateWellFormed(Items(s, 0).value, NO_TABLE);
    Locate(Items(s, 0).value, NO_TABLE)
  }

  // ----- The inverse undoes

  function Undo(c: Located): (r: Located)
    requires c.WellFormed()
    ensures r.WellFormed()
  {
    if c.op == OP_INSERT then c.(op := OP_DELETE)
    else if c.op == OP_DELETE then c.(op := OP_INSERT)
    else c.(fields := InvertFields(c.fields, |c.pk|, c.pk))
  }

  lemma {:induction false} UndoKeepsId(c: Located)
    requires c.WellFormed()
    ensures Undo(c).Id() == c.Id()
  {
    if c.op == OP_UPDATE {
      SameKey(Undo(c).fields, c.fields, c.pk);
    }
  }

  lemma {:induction false} UndoUpdate(c: Located, row: Row)
    requires Canonical(c) && c.op == OP_UPDATE && Matches(row, c.Was())
    ensures var after := Overlay(row, c.Now());
            && Undo(c).op == OP_UPDATE && Matches(after, Undo(c).Was())
            && Overlay(after, Undo(c).Now()) == row
  {
    var after := Overlay(row, c.Now());
    var u := Undo(c);
    forall i | 0 <= i < |row|
      ensures (u.Was()[i] == OMIT || u.Was()[i] == after[i]) && Overlay(after, u.Now())[i] == row[i]
    {
      assert UpdateColumn(c.pk, i, c.Was()[i], c.Now()[i]);
      assert u.Was()[i] == if IsKey(c.pk, i) then c.Was()[i] else c.Now()[i];
      assert u.Now()[i] == if IsKey(c.pk, i) then OMIT else c.Was()[i];
    }
  }

  /** On one row, a change and then its inverse is no change at all. */
  lemma {:induction false} UndoEffect(c: Located, x: Option<Row>)
    requires Canonical(c) && Effect(c, x).Done?
    ensures Effect(Undo(c), Effect(c, x).row) == Done(x)
  {
    if c.op == OP_UPDATE {
      UndoUpdate(c, x.value);
    }
  }

  function UndoAll(cs: seq<Located>): (r: seq<Located>)
    requires AllWellFormed(cs)
    ensures |r| == |cs| && AllWellFormed(r)
  {
    seq(|cs|, i requires 0 <= i < |cs| => Undo(cs[i]))
  }

  lemma {:induction false} UndoTouches(cs: seq<Located>, id: RowId)
    requires AllWellFormed(cs)
    ensures Touches(UndoAll(cs), id) <==> Touches(cs, id)
  {
    forall i | 0 <= i < |cs|
      ensures UndoAll(cs)[i].Id() == cs[i].Id()
    {
      UndoKeepsId(cs[i]);
    }
    if Touches(cs, id) {
      var i :| 0 <= i < |cs| && cs[i].Id() == id;
      assert UndoAll(cs)[i].Id() == id;
    }
  }

  lemma {:induction false} UndoLeads(db: Db, cs: seq<Located>, end: Db)
    requires AllCanonical(cs) && AllWellFormed(cs) && Distinct(cs) && Leads(db, cs, end)
    ensures Distinct(UndoAll(cs)) && Leads(end, UndoAll(cs), db)
  {
    var us := UndoAll(cs);
    forall i | 0 <= i < |cs|
      ensures us[i].Id() == cs[i].Id() && Effect(us[i], Get(end, us[i].Id())) == Done(Get(db, us[i].Id()))
    {
      UndoKeepsId(cs[i]);
      UndoEffect(cs[i], Get(db, cs[i].Id()));
    }
    forall id | !Touches(us, id)
      ensures Get(db, id) == Get(end, id)
    {
      UndoTouches(cs, id);
    }
  }

  lemma {:induction false} LocateInverse(items: seq<Item>, h: Header)
    requires AreItems(items, h.ncol) && |h.pk| == h.ncol
    ensures AllWellFormed(Locate(items, h))
    ensures Locate(InvertItems(items, h.ncol, h.pk), h) == UndoAll(Locate(items, h))
    decreases items
  {
    LocateWellFormed(items, h);
    if items != [] {
      var inv := InvertItems(items, h.ncol, h.pk);
      match items[0]
      case Head(hdr) =>
        assert inv[1..] == InvertItems(items[1..], hdr.ncol, hdr.pk);
        LocateInverse(items[1..], hdr);
      case Change(op, indirect, fields) =>
        assert inv[1..] == InvertItems(items[1..], h.ncol, h.pk);
        LocateInverse(items[1..], h);
        var c := Located(h.name, h.pk, op, indirect, fields);
        assert Locate(items, h) == [c] + Locate(items[1..], h);
        assert UndoAll(Locate(items, h)) == [Undo(c)] + UndoAll(Locate(items[1..], h));
    }
  }

  /** Applying a changeset and then its inverse restores the database. */
  lemma {:induction false} InverseRestores(s: bytes, db: Db)
    requires Items(s, 0).Ok? && AllCanonical(ChangesOf(s)) && Distinct(ChangesOf(s))
    requires Apply(db, ChangesOf(s)).Clean?
    ensures var t := Inverse(s, 0, []);
            && t.Ok? && Items(t.value, 0).Ok?
            && Apply(Apply(db, ChangesOf(s)).db, ChangesOf(t.value)) == Clean(db)
  {
    var items, cs, end := Items(s, 0).value, ChangesOf(s), Apply(db, ChangesOf(s)).db;
    ParseThenUnparse(s, 0);
    InvertItemsTwice(items, 0, []);
    UnparseThenParse(InvertItems(items, 0, []), 0);
    LocateInverse(items, NO_TABLE);
    ApplyIsLeads(db, cs, end);
    UndoLeads(db, cs, end);
    ApplyIsLeads(end, UndoAll(cs), db);
  }
}
