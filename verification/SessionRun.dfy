/** Runs of row operations under a session. */
module SessionRun {
  import opened Bytes
  import opened SessionValues
  import opened Recorder
  import opened Session

  // ----- Tables and operations

  /** The values of the key columns, in column order. */
  function KeyValues(row: VRow, flags: bytes): seq<Value> {
    if row == [] || flags == [] then []
    else (if flags[0] != 0 then [row[0]] else []) + KeyValues(row[1..], flags[1..])
  }

  // Key columns hold no NaN and no negative zero, for which being equal and having equal bits differ.
  predicate RowOk(row: VRow, flags: bytes) {
    |row| == |flags| && forall i :: 0 <= i < |row| ==> ValueOk(row[i]) && (flags[i] != 0 ==> Plain(row[i]))
  }

  ghost predicate DbOk(db: VDb, shapes: Shapes) {
    forall id {:trigger db[id]} :: id in db ==> RowFits(db[id], id, shapes)
  }

  predicate RowFits(row: VRow, id: VId, shapes: Shapes) {
    id.table in shapes && RowOk(row, shapes[id.table]) && KeyValues(row, shapes[id.table]) == id.pk
  }

  datatype Op = InsertRow(table: bytes, row: VRow, indirect: bool)
              | DeleteRow(table: bytes, pk: seq<Value>, indirect: bool)
              | UpdateRow(table: bytes, pk: seq<Value>, row: VRow, indirect: bool)

  function NewId(op: Op, shapes: Shapes): VId
    requires !op.DeleteRow? && op.table in shapes
  {
    VId(op.table, KeyValues(op.row, shapes[op.table]))
  }

  /** Operations a table with a primary key admits: no duplicate keys, and an update or delete of a row
      that is there. An update may change the key. */
  predicate Allowed(db: VDb, shapes: Shapes, op: Op) {
    && op.table in shapes
    && match op
       case InsertRow(_, row, _) => RowOk(row, shapes[op.table]) && NewId(op, shapes) !in db
       case DeleteRow(_, pk, _) => VId(op.table, pk) in db
       case UpdateRow(_, pk, row, _) =>
         && RowOk(row, shapes[op.table]) && VId(op.table, pk) in db
         && (NewId(op, shapes) == VId(op.table, pk) || NewId(op, shapes) !in db)
  }

  function Next(db: VDb, shapes: Shapes, op: Op): VDb
    requires Allowed(db, shapes, op)
  {
    match op
    case InsertRow(_, row, _) => db[NewId(op, shapes) := row]
    case DeleteRow(_, pk, _) => db - {VId(op.table, pk)}
    case UpdateRow(_, pk, row, _) => (db - {VId(op.table, pk)})[NewId(op, shapes) := row]
  }

  predicate Runs(db: VDb, shapes: Shapes, ops: seq<Op>)
    decreases ops
  {
    ops == [] || (Allowed(db, shapes, ops[0]) && Runs(Next(db, shapes, ops[0]), shapes, ops[1..]))
  }

  function Final(db: VDb, shapes: Shapes, ops: seq<Op>): VDb
    requires Runs(db, shapes, ops)
    decreases ops
  {
    if ops == [] then db else Final(Next(db, shapes, ops[0]), shapes, ops[1..])
  }

  lemma {:induction false} NextOk(db: VDb, shapes: Shapes, op: Op)
    requires DbOk(db, shapes) && Allowed(db, shapes, op)
    ensures DbOk(Next(db, shapes, op), shapes)
  {
    var next := Next(db, shapes, op);
    forall id | id in next
      ensures RowFits(next[id], id, shapes)
    {
      if !op.DeleteRow? && id == NewId(op, shapes) {
        assert next[id] == op.row;
      } else {
        assert id in db && next[id] == db[id];
      }
    }
  }

  // ----- What is recorded for an operation

  /** Record an operation, and let the row change. */
  method Execute(s: SessionState, db: VDb, shapes: Shapes, op: Op, ghost sts: seq<TrackState>, ghost start: VDb)
    returns (next: VDb, ghost after: seq<TrackState>)
    requires Shows(s.tables, sts) && Standing(s.Current(), sts, shapes, start, db) && Allowed(db, shapes, op)
    modifies s`tables, s.tables
    ensures next == Next(db, shapes, op)
    ensures Shows(s.tables, after) && Standing(s.Current(), after, shapes, start, next)
    ensures forall i :: 0 <= i < |s.tables| ==> s.tables[i] in old(s.tables) || fresh(s.tables[i])
  {
    next := Next(db, shapes, op);
    match op
    case InsertRow(table, row, indirect) =>
      var pk := KeyValues(row, shapes[table]);
      after := s.Record(table, shapes, Insert, pk, seq(|row|, _ => Null), indirect, sts, start, db);
      Settled(s.Current(), after, shapes, start, db, op);
    case DeleteRow(table, pk, indirect) =>
      after := s.Record(table, shapes, Delete, pk, db[VId(table, pk)], indirect, sts, start, db);
      Settled(s.Current(), after, shapes, start, db, op);
    case UpdateRow(table, pk, row, indirect) =>
      ghost var mid;
      mid := s.Record(table, shapes, Update, pk, db[VId(table, pk)], indirect, sts, start, db);
      var newPk := KeyValues(row, shapes[table]);
      FitsAfterUpdate(s.Current(), mid, shapes, db, op, indirect || s.indirectMode);
      after := s.Record(table, shapes, Insert, newPk, seq(|row|, _ => Null), indirect, mid, start, db);
      Settled(s.Current(), after, shapes, start, db, op);
  }

  // After the update of the old key has been recorded, the new key is either free or the same.
  lemma {:induction false} FitsAfterUpdate(scope: Scope, sts: seq<TrackState>, shapes: Shapes, db: VDb, op: Op,
                                           indirect: bool)
    requires Allowed(db, shapes, op) && op.UpdateRow? && Covered(scope, sts, VId(op.table, op.pk))
    ensures var id := NewId(op, shapes);
            Watched(scope, id) ==> Fits(sts, id, Tracked(Insert, id.pk, seq(|op.row|, _ => Null), indirect), db)
  {
  }

  // All rows the operation changes are covered, so the session stands for the next state too.
  lemma {:induction false} Settled(scope: Scope, sts: seq<TrackState>, shapes: Shapes, start: VDb, db: VDb, op: Op)
    requires Standing(scope, sts, shapes, start, db) && Allowed(db, shapes, op)
    requires !op.DeleteRow? ==> Covered(scope, sts, NewId(op, shapes))
    requires !op.InsertRow? ==> Covered(scope, sts, VId(op.table, op.pk))
    ensures Standing(scope, sts, shapes, start, Next(db, shapes, op))
  {
    MovesOn(scope, sts, start, db, Next(db, shapes, op));
  }

  lemma {:induction false} StartsEmpty(scope: Scope, shapes: Shapes, db: VDb)
    ensures Standing(scope, [], shapes, db, db)
  {
  }

  /** A whole run under a session attached at its start: whatever the operations, the session stands for
      the difference between the start and the end. */
  method Run(s: SessionState, db: VDb, shapes: Shapes, ops: seq<Op>)
    returns (final: VDb, ghost sts: seq<TrackState>)
    requires s.tables == [] && DbOk(db, shapes) && Runs(db, shapes, ops)
    modifies s
    ensures final == Final(db, shapes, ops) && DbOk(final, shapes) && s.Current() == old(s.Current())
    ensures Shows(s.tables, sts) && Standing(s.Current(), sts, shapes, db, final)
  {
    final, sts := db, [];
    StartsEmpty(s.Current(), shapes, db);
    var todo := ops;
    while todo != []
      invariant Runs(final, shapes, todo) && Final(final, shapes, todo) == Final(db, shapes, ops)
      invariant DbOk(final, shapes) && s.Current() == old(s.Current())
      invariant Shows(s.tables, sts) && Standing(s.Current(), sts, shapes, db, final)
      invariant forall i :: 0 <= i < |s.tables| ==> fresh(s.tables[i])
      decreases todo
    {
      NextOk(final, shapes, todo[0]);
      final, sts := Execute(s, final, shapes, todo[0], sts, db);
      todo := todo[1..];
    }
  }
}
