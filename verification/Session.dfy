/** A session over a run of row changes: what it remembers is enough to tell how every watched row
    differs between the start of the session and now. */
module Session {
  import opened Bytes
  import opened SessionValues
  import opened Buckets
  import opened Recorder

  type VRow = seq<Value>

  datatype VId = VId(table: bytes, pk: seq<Value>)

  type VDb = map<VId, VRow>

  function VGet(db: VDb, id: VId): Option<VRow> {
    if id in db then Some(db[id]) else None
  }

  /** Which tables a session is attached to. */
  datatype Scope = Scope(enabled: bool, attachAll: bool, attached: seq<bytes>) {
    predicate Watches(table: bytes) {
      enabled && (attachAll || table in attached)
    }
  }

  predicate HasNull(pk: seq<Value>) {
    Null in pk
  }

  /** Rows that are recorded: of an attached table, and without NULL in the key. */
  predicate Watched(scope: Scope, id: VId) {
    scope.Watches(id.table) && !HasNull(id.pk)
  }

  // ----- What the session remembers

  // The contents of a recorder's fields.
  datatype TrackState = TrackState(name: bytes, pkFlags: bytes, buckets: seq<seq<Tracked>>, nentry: nat)

  ghost predicate TracksOk(sts: seq<TrackState>) {
    forall t {:trigger TrackOk(sts[t].buckets, sts[t].nentry)} ::
      0 <= t < |sts| ==> TrackOk(sts[t].buckets, sts[t].nentry)
  }

  ghost predicate NamesDiffer(sts: seq<TrackState>) {
    forall i, j :: 0 <= i < j < |sts| ==> sts[i].name != sts[j].name
  }

  ghost predicate HasPk(m: multiset<Tracked>, pk: seq<Value>) {
    exists c :: c in m && c.pk == pk
  }

  ghost predicate Has(st: TrackState, pk: seq<Value>) {
    HasPk(Spread(st.buckets), pk)
  }

  ghost predicate IsTracked(sts: seq<TrackState>, id: VId) {
    exists t :: 0 <= t < |sts| && sts[t].name == id.table && Has(sts[t], id.pk)
  }

  // A change says where its row started.
  ghost predicate Origin(scope: Scope, name: bytes, c: Tracked, start: VDb) {
    var id := VId(name, c.pk);
    Watched(scope, id) && if c.op.Insert? then id !in start else id in start && start[id] == c.was
  }

  ghost predicate Origins(scope: Scope, st: TrackState, start: VDb) {
    forall c :: c in Spread(st.buckets) ==> Origin(scope, st.name, c, start)
  }

  ghost predicate AllOrigins(scope: Scope, sts: seq<TrackState>, start: VDb) {
    forall t {:trigger Origins(scope, sts[t], start)} :: 0 <= t < |sts| ==> Origins(scope, sts[t], start)
  }

  /** Every remembered change says where its row started; every other watched row is as it started. */
  ghost predicate Remembers(scope: Scope, sts: seq<TrackState>, start: VDb, now: VDb) {
    && TracksOk(sts) && NamesDiffer(sts) && AllOrigins(scope, sts, start)
    && (forall id :: Watched(scope, id) && !IsTracked(sts, id) ==> VGet(now, id) == VGet(start, id))
  }

  ghost predicate Covered(scope: Scope, sts: seq<TrackState>, id: VId) {
    Watched(scope, id) ==> IsTracked(sts, id)
  }

  /** Rows that are covered may change. */
  lemma {:induction false} MovesOn(scope: Scope, sts: seq<TrackState>, start: VDb, now: VDb, next: VDb)
    requires Remembers(scope, sts, start, now)
    requires forall id :: VGet(next, id) != VGet(now, id) ==> Covered(scope, sts, id)
    ensures Remembers(scope, sts, start, next)
  {
    forall id | Watched(scope, id) && !IsTracked(sts, id)
      ensures VGet(next, id) == VGet(start, id)
    {
      assert VGet(next, id) == VGet(now, id);
    }
  }

  // ----- Recording

  // The change fits the current state of its row, if the row is not tracked yet.
  ghost predicate Fits(sts: seq<TrackState>, id: VId, c: Tracked, now: VDb) {
    && id.pk == c.pk
    && (!IsTracked(sts, id) ==> if c.op.Insert? then id !in now else id in now && now[id] == c.was)
  }

  lemma {:induction false} AddedHas(m: multiset<Tracked>, c: Tracked, pk: seq<Value>)
    ensures HasPk(m + multiset{c}, pk) <==> HasPk(m, pk) || pk == c.pk
  {
    var after := m + multiset{c};
    assert c in after;
    if HasPk(m, pk) {
      var x :| x in m && x.pk == pk;
      assert x in after;
    }
  }

  lemma {:induction false} AdjustedHas(m: multiset<Tracked>, e: Tracked, y: Tracked, pk: seq<Value>)
    requires e in m && y.pk == e.pk
    ensures HasPk(m - multiset{e} + multiset{y}, pk) <==> HasPk(m, pk)
  {
    AddedHas(m - multiset{e}, y, pk);
    AddedHas(m - multiset{e}, e, pk);
    assert m - multiset{e} + multiset{e} == m;
  }

  lemma {:induction false} RecordedHas(m: multiset<Tracked>, c: Tracked, after: multiset<Tracked>, pk: seq<Value>)
    requires RecordsTo(m, c, after)
    ensures HasPk(after, pk) <==> HasPk(m, pk) || pk == c.pk
  {
    if forall e :: e in m ==> e.pk != c.pk {
      AddedHas(m, c, pk);
    } else {
      var e :| Adjusts(m, c, e, after);
      AdjustedHas(m, e, e.(indirect := e.indirect && c.indirect), pk);
      assert HasPk(m, c.pk);
    }
  }

  lemma {:induction false} RecordedOrigins(scope: Scope, st: TrackState, c: Tracked, after: TrackState, start: VDb)
    requires Origins(scope, st, start) && after.name == st.name
    requires RecordsTo(Spread(st.buckets), c, Spread(after.buckets))
    requires Has(st, c.pk) || Origin(scope, st.name, c, start)
    ensures Origins(scope, after, start)
  {
    var m, m' := Spread(st.buckets), Spread(after.buckets);
    if forall e :: e in m ==> e.pk != c.pk {
      assert Origin(scope, st.name, c, start);
    } else {
      var e :| Adjusts(m, c, e, m');
      assert Origin(scope, st.name, e, start);
    }
  }

  lemma {:induction false} TrackedAfter(sts: seq<TrackState>, t: nat, c: Tracked, after: TrackState, id: VId)
    requires t < |sts| && after.name == sts[t].name
    requires Has(after, id.pk) <==> Has(sts[t], id.pk) || id.pk == c.pk
    ensures IsTracked(sts[t := after], id) <==> IsTracked(sts, id) || id == VId(after.name, c.pk)
  {
    var sts' := sts[t := after];
    if IsTracked(sts, id) {
      var i :| 0 <= i < |sts| && sts[i].name == id.table && Has(sts[i], id.pk);
      assert sts'[i].name == id.table && Has(sts'[i], id.pk);
    }
    if id == VId(after.name, c.pk) {
      assert sts'[t].name == id.table && Has(sts'[t], id.pk);
    }
    if IsTracked(sts', id) {
      var i :| 0 <= i < |sts'| && sts'[i].name == id.table && Has(sts'[i], id.pk);
      assert Has(sts[i], id.pk) || id.pk == c.pk;
    }
  }

  /** Recording a change keeps everything the session remembers and adds the row. */
  lemma {:induction false} RecordStep(scope: Scope, sts: seq<TrackState>, t: nat, c: Tracked, after: TrackState,
                                      start: VDb, now: VDb)
    requires Remembers(scope, sts, start, now) && t < |sts| && after.name == sts[t].name
    requires TrackOk(after.buckets, after.nentry) && RecordsTo(Spread(sts[t].buckets), c, Spread(after.buckets))
    requires Watched(scope, VId(sts[t].name, c.pk)) && Fits(sts, VId(sts[t].name, c.pk), c, now)
    ensures Remembers(scope, sts[t := after], start, now)
    ensures forall id :: IsTracked(sts[t := after], id) <==> IsTracked(sts, id) || id == VId(after.name, c.pk)
  {
    var sts', id0 := sts[t := after], VId(sts[t].name, c.pk);
    forall id
      ensures IsTracked(sts', id) <==> IsTracked(sts, id) || id == VId(after.name, c.pk)
    {
      RecordedHas(Spread(sts[t].buckets), c, Spread(after.buckets), id.pk);
      TrackedAfter(sts, t, c, after, id);
    }
    assert Origins(scope, sts[t], start);
    HasIsTracked(sts, t, c.pk);
    RecordedOrigins(scope, sts[t], c, after, start);
    UpdatedStates(scope, sts, t, after, start);
  }

  lemma {:induction false} HasIsTracked(sts: seq<TrackState>, t: nat, pk: seq<Value>)
    requires NamesDiffer(sts) && t < |sts|
    ensures IsTracked(sts, VId(sts[t].name, pk)) <==> Has(sts[t], pk)
  {
  }

  lemma {:induction false} UpdatedStates(scope: Scope, sts: seq<TrackState>, t: nat, after: TrackState, start: VDb)
    requires TracksOk(sts) && NamesDiffer(sts) && AllOrigins(scope, sts, start) && t < |sts|
    requires after.name == sts[t].name && TrackOk(after.buckets, after.nentry) && Origins(scope, after, start)
    ensures TracksOk(sts[t := after]) && NamesDiffer(sts[t := after]) && AllOrigins(scope, sts[t := after], start)
  {
    var sts' := sts[t := after];
    forall i | 0 <= i < |sts'|
      ensures TrackOk(sts'[i].buckets, sts'[i].nentry) && Origins(scope, sts'[i], start) && sts'[i].name == sts[i].name
    {
      if i != t {
        assert TrackOk(sts[i].buckets, sts[i].nentry) && Origins(scope, sts[i], start);
      }
    }
  }

  lemma {:induction false} NewTable(scope: Scope, sts: seq<TrackState>, name: bytes, pkFlags: bytes, start: VDb,
                                    now: VDb)
    requires Remembers(scope, sts, start, now) && forall i :: 0 <= i < |sts| ==> sts[i].name != name
    ensures var more := sts + [TrackState(name, pkFlags, [], 0)];
            && Remembers(scope, more, start, now) && forall id :: IsTracked(more, id) <==> IsTracked(sts, id)
  {
    var st := TrackState(name, pkFlags, [], 0);
    var more := sts + [st];
    assert TrackOk([], 0) && Origins(scope, st, start);
    assert forall i :: 0 <= i < |more| ==> more[i] == if i < |sts| then sts[i] else st;
    forall i | 0 <= i < |more|
      ensures TrackOk(more[i].buckets, more[i].nentry) && Origins(scope, more[i], start)
    {
      if i < |sts| {
        assert TrackOk(sts[i].buckets, sts[i].nentry) && Origins(scope, sts[i], start);
      }
    }
    forall id
      ensures IsTracked(more, id) <==> IsTracked(sts, id)
    {
      if i :| 0 <= i < |sts| && sts[i].name == id.table && Has(sts[i], id.pk) {
        assert more[i].name == id.table && Has(more[i], id.pk);
      }
    }
  }

  /** The recorders in memory, all different objects, hold `sts`. */
  ghost predicate Shows(tables: seq<TableChanges>, sts: seq<TrackState>)
    reads tables
  {
    && |tables| == |sts|
    && (forall i, j :: 0 <= i < j < |tables| ==> tables[i] != tables[j])
    && (forall i :: 0 <= i < |tables| ==> Holds(tables[i], sts[i]))
  }

  ghost predicate Holds(table: TableChanges, st: TrackState)
    reads table
  {
    table.name == st.name && table.pkFlags == st.pkFlags && table.buckets == st.buckets && table.nentry == st.nentry
  }

  // One recorder's fields before and after a change is recorded.
  ghost predicate Grew(st: TrackState, c: Tracked, after: TrackState) {
    && after.name == st.name && after.pkFlags == st.pkFlags && TrackOk(after.buckets, after.nentry)
    && RecordsTo(Spread(st.buckets), c, Spread(after.buckets))
  }

  method RecordOne(table: TableChanges, c: Tracked, ghost st: TrackState) returns (ghost after: TrackState)
    requires Holds(table, st) && TrackOk(st.buckets, st.nentry)
    modifies table
    ensures Holds(table, after) && Grew(st, c, after)
  {
    table.Record(c);
    after := TrackState(table.name, table.pkFlags, table.buckets, table.nentry);
  }

  method RecordIn(tables: seq<TableChanges>, t: nat, c: Tracked, ghost sts: seq<TrackState>)
    returns (ghost after: TrackState)
    requires Shows(tables, sts) && TracksOk(sts) && t < |tables|
    modifies tables[t]
    ensures Shows(tables, sts[t := after]) && Grew(sts[t], c, after)
  {
    after := RecordOne(tables[t], c, sts[t]);
  }

  // The place of the recorder of a table.
  method Position(tables: seq<TableChanges>, name: bytes, ghost sts: seq<TrackState>) returns (r: Option<nat>)
    requires Shows(tables, sts)
    ensures r.Some? ==> r.value < |sts| && sts[r.value].name == name
    ensures r.None? ==> forall i :: 0 <= i < |sts| ==> sts[i].name != name
  {
    for i := 0 to |tables|
      invariant forall j :: 0 <= j < i ==> sts[j].name != name
    {
      assert Holds(tables[i], sts[i]);
      if tables[i].name == name {
        return Some(i);
      }
    }
    return None;
  }

  // Shapes: the key flags of every table, which a recorder takes over when it is created.
  type Shapes = map<bytes, bytes>

  ghost predicate Shaped(sts: seq<TrackState>, shapes: Shapes) {
    forall t :: 0 <= t < |sts| ==> sts[t].name in shapes && sts[t].pkFlags == shapes[sts[t].name]
  }

  // What is known of a session in the middle of a run.
  ghost predicate Standing(scope: Scope, sts: seq<TrackState>, shapes: Shapes, start: VDb, now: VDb) {
    Remembers(scope, sts, start, now) && Shaped(sts, shapes)
  }

  lemma {:induction false} RecordStands(scope: Scope, sts: seq<TrackState>, shapes: Shapes, t: nat, c: Tracked,
                                        after: TrackState, start: VDb, now: VDb)
    requires Standing(scope, sts, shapes, start, now) && t < |sts| && Grew(sts[t], c, after)
    requires Watched(scope, VId(sts[t].name, c.pk)) && Fits(sts, VId(sts[t].name, c.pk), c, now)
    ensures Standing(scope, sts[t := after], shapes, start, now)
    ensures forall id :: IsTracked(sts[t := after], id) <==> IsTracked(sts, id) || id == VId(after.name, c.pk)
  {
    RecordStep(scope, sts, t, c, after, start, now);
    ShapedAfter(sts, shapes, t, after);
  }

  lemma {:induction false} ShapedAfter(sts: seq<TrackState>, shapes: Shapes, t: nat, after: TrackState)
    requires Shaped(sts, shapes) && t < |sts| && after.name == sts[t].name && after.pkFlags == sts[t].pkFlags
    ensures Shaped(sts[t := after], shapes)
  {
  }

  lemma {:induction false} OpenStands(scope: Scope, sts: seq<TrackState>, shapes: Shapes, name: bytes, start: VDb,
                                      now: VDb)
    requires Standing(scope, sts, shapes, start, now) && name in shapes
    requires forall i :: 0 <= i < |sts| ==> sts[i].name != name
    ensures var more := sts + [TrackState(name, shapes[name], [], 0)];
            && Standing(scope, more, shapes, start, now) && forall id :: IsTracked(more, id) <==> IsTracked(sts, id)
  {
    NewTable(scope, sts, name, shapes[name], start, now);
  }

  class SessionState {
    var enabled: bool
    var attachAll: bool
    var attached: seq<bytes>
    var indirectMode: bool
    var tables: seq<TableChanges>

    function Current(): Scope
      reads this
    {
      Scope(enabled, attachAll, attached)
    }

    constructor ()
      ensures !enabled && !attachAll && attached == [] && !indirectMode && tables == []
    {
      enabled, attachAll, attached, indirectMode, tables := false, false, [], false, [];
    }

    /** Watch every table. */
    method Attach()
      modifies this
      ensures Current() == old(Current()).(enabled := true, attachAll := true)
      ensures indirectMode == old(indirectMode) && tables == old(tables)
    {
      enabled, attachAll := true, true;
    }

    /** Watch one table more. */
    method AttachTable(table: bytes)
      modifies this
      ensures enabled && attachAll == old(attachAll) && indirectMode == old(indirectMode) && tables == old(tables)
      ensures forall t :: t in attached <==> t in old(attached) || t == table
    {
      enabled := true;
      if table !in attached {
        attached := attached + [table];
      }
    }

    // The recorder of a table, created when it is first needed.
    method Open(name: bytes, shapes: Shapes, ghost sts: seq<TrackState>, ghost start: VDb, ghost now: VDb)
      returns (t: nat, ghost after: seq<TrackState>)
      requires Shows(tables, sts) && Standing(Current(), sts, shapes, start, now) && name in shapes
      modifies this`tables
      ensures Shows(tables, after) && Standing(Current(), after, shapes, start, now)
      ensures t < |after| && after[t].name == name && forall id :: IsTracked(after, id) <==> IsTracked(sts, id)
      ensures forall i :: 0 <= i < |tables| ==> tables[i] in old(tables) || fresh(tables[i])
    {
      var p := Position(tables, name, sts);
      if p.Some? {
        return p.value, sts;
      }
      OpenStands(Current(), sts, shapes, name, start, now);
      var table := new TableChanges(name, shapes[name]);
      t, after := |tables|, sts + [TrackState(name, shapes[name], [], 0)];
      tables := tables + [table];
    }

    method RecordWatched(name: bytes, shapes: Shapes, c: Tracked,
                         ghost sts: seq<TrackState>, ghost start: VDb, ghost now: VDb)
      returns (ghost after: seq<TrackState>)
      requires Shows(tables, sts) && Standing(Current(), sts, shapes, start, now) && name in shapes
      requires Watched(Current(), VId(name, c.pk)) && Fits(sts, VId(name, c.pk), c, now)
      modifies this`tables, tables
      ensures Shows(tables, after) && Standing(Current(), after, shapes, start, now)
      ensures IsTracked(after, VId(name, c.pk)) && forall id :: IsTracked(sts, id) ==> IsTracked(after, id)
      ensures forall i :: 0 <= i < |tables| ==> tables[i] in old(tables) || fresh(tables[i])
    {
      var t;
      t, after := Open(name, shapes, sts, start, now);
      ghost var st := RecordIn(tables, t, c, after);
      RecordStands(Current(), after, shapes, t, c, st, start, now);
      after := after[t := st];
    }

    /** Record one row operation. Rows that are not watched are passed over. */
    method Record(name: bytes, shapes: Shapes, op: ChangeOp, pk: seq<Value>, was: VRow, indirect: bool,
                  ghost sts: seq<TrackState>, ghost start: VDb, ghost now: VDb)
      returns (ghost after: seq<TrackState>)
      requires Shows(tables, sts) && Standing(Current(), sts, shapes, start, now) && name in shapes
      requires Watched(Current(), VId(name, pk)) ==>
                 Fits(sts, VId(name, pk), Tracked(op, pk, was, indirect || indirectMode), now)
      modifies this`tables, tables
      ensures Shows(tables, after) && Standing(Current(), after, shapes, start, now)
      ensures Covered(Current(), after, VId(name, pk)) && forall id :: IsTracked(sts, id) ==> IsTracked(after, id)
      ensures forall i :: 0 <= i < |tables| ==> tables[i] in old(tables) || fresh(tables[i])
    {
      after := sts;
      if !enabled || (!attachAll && name !in attached) || HasNull(pk) {
        return;
      }
      after := RecordWatched(name, shapes, Tracked(op, pk, was, indirect || indirectMode), sts, start, now);
    }
  }
}
