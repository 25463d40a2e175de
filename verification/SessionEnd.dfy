/** The whole of a session: for every run, applying the changeset to the tables at the start gives the
    tables at the end. */
module SessionEnd {
  import opened Bytes
  import opened Changeset
  import opened Applying
  import opened Recorder
  import opened Session
  import opened SessionRun
  import opened SessionOut
  import opened SessionMeaning
  import Buckets

  // ----- What the recorded changes say about their rows

  function Recorded(st: TrackState): seq<Tracked> {
    Buckets.Flatten(st.buckets)
  }

  // The setting of a whole run.
  ghost predicate RunOk(scope: Scope, sts: seq<TrackState>, shapes: Shapes, start: VDb, now: VDb) {
    Session.Standing(scope, sts, shapes, start, now) && DbOk(start, shapes) && DbOk(now, shapes) && ShapesOk(shapes)
  }

  lemma {:induction false} RecordedFits(scope: Scope, sts: seq<TrackState>, shapes: Shapes, start: VDb, now: VDb,
                                        t: nat)
    requires RunOk(scope, sts, shapes, start, now) && t < |sts|
    ensures AllFit(Recorded(sts[t]), sts[t].name, sts[t].pkFlags, start, now) && PksDiffer(Recorded(sts[t]))
    ensures ShapeOk(sts[t].name, sts[t].pkFlags)
    ensures forall i :: 0 <= i < |Recorded(sts[t])| ==> Watched(scope, VId(sts[t].name, Recorded(sts[t])[i].pk))
  {
    var st, cs := sts[t], Recorded(sts[t]);
    assert Origins(scope, st, start) && TrackOk(st.buckets, st.nentry);
    Buckets.FlattenIsSpread(st.buckets);
    forall i | 0 <= i < |cs|
      ensures FitsIn(cs[i], st.name, st.pkFlags, start, now) && Watched(scope, VId(st.name, cs[i].pk))
    {
      assert cs[i] in multiset(cs);
      assert Origin(scope, st.name, cs[i], start);
      RowsFit(start, shapes, VId(st.name, cs[i].pk));
      RowsFit(now, shapes, VId(st.name, cs[i].pk));
    }
    AllPksDiffer(cs);
  }

  lemma {:induction false} RowsFit(db: VDb, shapes: Shapes, id: VId)
    requires DbOk(db, shapes)
    ensures id in db ==> RowFits(db[id], id, shapes)
  {
  }

  lemma {:induction false} AllPksDiffer(cs: seq<Tracked>)
    requires Buckets.OnePerKey(multiset(cs), KeyFn())
    ensures PksDiffer(cs)
  {
    forall i, j | 0 <= i < j < |cs|
      ensures cs[i].pk != cs[j].pk
    {
      if cs[i].pk == cs[j].pk {
        assert KeyFn()(cs[i]) == KeyFn()(cs[j]);
        assert cs[i] in multiset(cs) && cs[j] in multiset(cs);
        Buckets.Twice(cs, i, j);
        assert false;
      }
    }
  }

  // ----- The changes written

  lemma {:induction false} Emits(scope: Scope, sts: seq<TrackState>, shapes: Shapes, start: VDb, now: VDb)
    requires RunOk(scope, sts, shapes, start, now)
    ensures StatesEmittable(sts, now)
  {
    forall t | 0 <= t < |sts|
      ensures AllEmittable(Buckets.Flatten(sts[t].buckets), sts[t].name, now)
    {
      RecordedFits(scope, sts, shapes, start, now, t);
      AllFitEmittable(Recorded(sts[t]), sts[t].name, sts[t].pkFlags, start, now);
    }
  }

  // The changes written for one table.
  ghost function TableChangesOf(st: TrackState, now: VDb): seq<Located> {
    if AllEmittable(Recorded(st), st.name, now) then
      var items := EmitAll(Recorded(st), st.name, st.pkFlags, now, false);
      if ChangesFor(items, st.pkFlags) then Unders(items, st.name, st.pkFlags) else []
    else []
  }

  ghost function Parts(sts: seq<TrackState>, now: VDb): (r: seq<seq<Located>>)
    ensures |r| == |sts|
  {
    seq(|sts|, t requires 0 <= t < |sts| => TableChangesOf(sts[t], now))
  }

  function CatAll(parts: seq<seq<Located>>, n: nat): seq<Located>
    requires n <= |parts|
  {
    if n == 0 then [] else CatAll(parts, n - 1) + parts[n - 1]
  }

  // `l` is written for a recorded change of table `t`.
  ghost predicate WrittenIn(l: Located, sts: seq<TrackState>, t: nat, now: VDb)
    requires t < |sts|
  {
    Comes(l, Recorded(sts[t]), sts[t].name, sts[t].pkFlags, now)
  }

  // What one table's part is like.
  ghost predicate IsPart(ls: seq<Located>, sts: seq<TrackState>, t: nat, now: VDb)
    requires t < |sts|
  {
    && AllWellFormed(ls) && Distinct(ls) && AllCanonical(ls)
    && (forall l :: l in ls <==> WrittenIn(l, sts, t, now))
    && (forall l :: l in ls ==> l.table == sts[t].name)
  }

  lemma {:induction false} TablePart(scope: Scope, sts: seq<TrackState>, shapes: Shapes, start: VDb, now: VDb, t: nat)
    requires RunOk(scope, sts, shapes, start, now) && t < |sts|
    ensures IsPart(TableChangesOf(sts[t], now), sts, t, now)
  {
    var st := sts[t];
    RecordedFits(scope, sts, shapes, start, now, t);
    TableWrites(Recorded(st), st.name, st.pkFlags, start, now);
    TableDistinct(Recorded(st), st.name, st.pkFlags, start, now);
    var ls := TableChangesOf(st, now);
    forall l | l in ls
      ensures Canonical(l) && l.table == st.name
    {
      var i :| 0 <= i < |Recorded(st)| && WrittenAs(Recorded(st)[i], st.name, st.pkFlags, now, l);
      assert FitsIn(Recorded(st)[i], st.name, st.pkFlags, start, now);
      WrittenTakes(Recorded(st)[i], st.name, st.pkFlags, start, now, l);
    }
  }

  // One table's items are read back as its changes, whatever stands before them.
  ghost predicate ReadsOk(sts: seq<TrackState>, t: nat, now: VDb)
    requires t < |sts|
  {
    && AllEmittable(Recorded(sts[t]), sts[t].name, now)
    && (forall n :: AreItems(TableItems(sts[t], now, false), n))
    && (forall k :: Locate(TableItems(sts[t], now, false), k) == TableChangesOf(sts[t], now))
  }

  lemma {:induction false} TableItemsRead(scope: Scope, sts: seq<TrackState>, shapes: Shapes, start: VDb, now: VDb,
                                          t: nat)
    requires RunOk(scope, sts, shapes, start, now) && t < |sts|
    ensures ReadsOk(sts, t, now)
  {
    var st := sts[t];
    RecordedFits(scope, sts, shapes, start, now, t);
    TableWrites(Recorded(st), st.name, st.pkFlags, start, now);
    WrittenHeader(st.name, st.pkFlags);
    var h, items := HeaderFor(st.name, st.pkFlags, false), EmitAll(Recorded(st), st.name, st.pkFlags, now, false);
    assert TableItems(st, now, false) == TableOf(items, h);
    forall n
      ensures AreItems(TableItems(st, now, false), n)
    {
      TableReadsBack(items, h, n, h);
    }
    forall k
      ensures Locate(TableItems(st, now, false), k) == TableChangesOf(st, now)
    {
      TableReadsBack(items, h, 0, k);
    }
  }

  ghost predicate AllParts(parts: seq<seq<Located>>, sts: seq<TrackState>, now: VDb) {
    && |parts| == |sts| && NamesDiffer(sts)
    && forall t {:trigger IsPart(parts[t], sts, t, now)} :: 0 <= t < |sts| ==> IsPart(parts[t], sts, t, now)
  }

  ghost predicate AllRead(sts: seq<TrackState>, now: VDb) {
    forall t {:trigger ReadsOk(sts, t, now)} :: 0 <= t < |sts| ==> ReadsOk(sts, t, now)
  }

  // Items that are read as these changes.
  ghost predicate ReadAs(items: seq<Item>, cs: seq<Located>) {
    AreItems(items, 0) && Locate(items, NO_TABLE) == cs
  }

  lemma {:induction false} ReadTable(sts: seq<TrackState>, t: nat, now: VDb, a: seq<Item>, cs: seq<Located>)
    requires t < |sts| && StatesEmittable(sts, now) && ReadsOk(sts, t, now) && ReadAs(a, cs)
    ensures AllEmittable(Buckets.Flatten(sts[t].buckets), sts[t].name, now)
    ensures ReadAs(a + TableItems(sts[t], now, false), cs + Parts(sts, now)[t])
  {
    var b := TableItems(sts[t], now, false);
    AreItemsCat(a, b, 0);
    LocateCat(a, b, NO_TABLE, Parts(sts, now)[t]);
  }

  lemma {:induction false} ReadNothing()
    ensures ReadAs([], [])
  {
  }

  type ItemsTo = nat -> seq<Item>

  type PartsTo = nat -> seq<Located>

  // One table after the other.
  lemma {:induction false} ReadTables(f: ItemsTo, g: PartsTo, n: nat)
    requires ReadAs(f(0), g(0)) && forall i :: 0 <= i < n && ReadAs(f(i), g(i)) ==> ReadAs(f(i + 1), g(i + 1))
    ensures ReadAs(f(n), g(n))
    decreases n
  {
    if n > 0 {
      ReadTables(f, g, n - 1);
    }
  }

  ghost function ItemsUpTo(sts: seq<TrackState>, now: VDb): ItemsTo
    requires StatesEmittable(sts, now)
  {
    (i: nat) => if i <= |sts| then SessionItems(sts, i, now, false) else []
  }

  ghost function PartsUpTo(sts: seq<TrackState>, now: VDb): PartsTo {
    (i: nat) => if i <= |sts| then CatAll(Parts(sts, now), i) else []
  }

  lemma {:induction false} OneIsRead(sts: seq<TrackState>, now: VDb, t: nat)
    requires AllRead(sts, now) && t < |sts|
    ensures ReadsOk(sts, t, now)
  {
  }

  lemma {:induction false} ReadNext(sts: seq<TrackState>, now: VDb, i: nat)
    requires i < |sts| && StatesEmittable(sts, now) && ReadsOk(sts, i, now)
    requires ReadAs(ItemsUpTo(sts, now)(i), PartsUpTo(sts, now)(i))
    ensures ReadAs(ItemsUpTo(sts, now)(i + 1), PartsUpTo(sts, now)(i + 1))
  {
    NextItems(sts, now, i);
    ReadTable(sts, i, now, ItemsUpTo(sts, now)(i), PartsUpTo(sts, now)(i));
  }

  lemma {:induction false} NextItems(sts: seq<TrackState>, now: VDb, i: nat)
    requires i < |sts| && StatesEmittable(sts, now)
    ensures AllEmittable(Buckets.Flatten(sts[i].buckets), sts[i].name, now)
    ensures ItemsUpTo(sts, now)(i + 1) == ItemsUpTo(sts, now)(i) + TableItems(sts[i], now, false)
    ensures PartsUpTo(sts, now)(i + 1) == PartsUpTo(sts, now)(i) + Parts(sts, now)[i]
  {
    SessionItemsNext(sts, now, i);
    CatAllNext(Parts(sts, now), i);
  }

  lemma {:induction false} SessionItemsNext(sts: seq<TrackState>, now: VDb, i: nat)
    requires i < |sts| && StatesEmittable(sts, now)
    ensures AllEmittable(Buckets.Flatten(sts[i].buckets), sts[i].name, now)
    ensures SessionItems(sts, i + 1, now, false) == SessionItems(sts, i, now, false) + TableItems(sts[i], now, false)
  {
  }

  lemma {:induction false} CatAllNext(parts: seq<seq<Located>>, i: nat)
    requires i < |parts|
    ensures CatAll(parts, i + 1) == CatAll(parts, i) + parts[i]
  {
  }

  lemma {:induction false} SessionReads(sts: seq<TrackState>, now: VDb, n: nat)
    requires n <= |sts| && StatesEmittable(sts, now) && AllRead(sts, now)
    ensures ReadAs(SessionItems(sts, n, now, false), CatAll(Parts(sts, now), n))
  {
    var f, g := ItemsUpTo(sts, now), PartsUpTo(sts, now);
    ReadNothing();
    forall i | 0 <= i < n && ReadAs(f(i), g(i))
      ensures ReadAs(f(i + 1), g(i + 1))
    {
      OneIsRead(sts, now, i);
      ReadNext(sts, now, i);
    }
    ReadTables(f, g, n);
  }

  // The changes of the first `n` tables, and nothing else.
  ghost predicate FromTables(cs: seq<Located>, sts: seq<TrackState>, n: nat, now: VDb)
    requires n <= |sts|
  {
    && (forall l :: l in cs ==> exists t :: 0 <= t < n && l.table == sts[t].name && WrittenIn(l, sts, t, now))
    && (forall t, l :: 0 <= t < n && WrittenIn(l, sts, t, now) ==> l in cs)
  }

  lemma {:induction false} OneTableMore(a: seq<Located>, b: seq<Located>, sts: seq<TrackState>, n: nat, now: VDb)
    requires n < |sts| && FromTables(a, sts, n, now)
    requires forall l :: l in b <==> WrittenIn(l, sts, n, now)
    requires forall l :: l in b ==> l.table == sts[n].name
    ensures FromTables(a + b, sts, n + 1, now)
  {
    forall l | l in a + b
      ensures exists t :: 0 <= t < n + 1 && l.table == sts[t].name && WrittenIn(l, sts, t, now)
    {
      if l in b {
        assert l.table == sts[n].name && WrittenIn(l, sts, n, now);
      } else {
        var t :| 0 <= t < n && l.table == sts[t].name && WrittenIn(l, sts, t, now);
        assert t < n + 1;
      }
    }
  }

  ghost predicate AreParts(cs: seq<Located>, sts: seq<TrackState>, n: nat, now: VDb)
    requires n <= |sts|
  {
    AllWellFormed(cs) && Distinct(cs) && AllCanonical(cs) && FromTables(cs, sts, n, now)
  }

  lemma {:induction false} TablesDiffer(a: seq<Located>, b: seq<Located>, sts: seq<TrackState>, n: nat, now: VDb)
    requires n < |sts| && NamesDiffer(sts) && FromTables(a, sts, n, now)
    requires forall l :: l in b ==> l.table == sts[n].name
    ensures forall x, y :: x in a && y in b ==> x.table != y.table
  {
    forall x, y | x in a && y in b
      ensures x.table != y.table
    {
      var t :| 0 <= t < n && x.table == sts[t].name && WrittenIn(x, sts, t, now);
    }
  }

  lemma {:induction false} PartsStep(a: seq<Located>, b: seq<Located>, sts: seq<TrackState>, n: nat, now: VDb)
    requires n < |sts| && NamesDiffer(sts) && AreParts(a, sts, n, now) && IsPart(b, sts, n, now)
    ensures AreParts(a + b, sts, n + 1, now)
  {
    TablesDiffer(a, b, sts, n, now);
    DistinctCat(a, b);
    OneTableMore(a, b, sts, n, now);
    assert forall i :: 0 <= i < |a + b| ==> (a + b)[i] == if i < |a| then a[i] else b[i - |a|];
  }

  type PartsTest = (seq<Located>, nat) -> bool

  ghost predicate Extends(holds: PartsTest, part: seq<Located>, i: nat) {
    forall cs :: holds(cs, i) ==> holds(cs + part, i + 1)
  }

  lemma {:induction false} FoldParts(holds: PartsTest, parts: seq<seq<Located>>, n: nat)
    requires n <= |parts| && holds([], 0) && forall i :: 0 <= i < |parts| ==> Extends(holds, parts[i], i)
    ensures holds(CatAll(parts, n), n)
    decreases n
  {
    if n > 0 {
      FoldParts(holds, parts, n - 1);
      assert Extends(holds, parts[n - 1], n - 1);
    }
  }

  lemma {:induction false} PartsDistinct(parts: seq<seq<Located>>, sts: seq<TrackState>, now: VDb, n: nat)
    requires AllParts(parts, sts, now) && n <= |sts|
    ensures AreParts(CatAll(parts, n), sts, n, now)
  {
    var holds: PartsTest := (cs: seq<Located>, i: nat) => i <= |sts| && AreParts(cs, sts, i, now);
    forall i | 0 <= i < |parts|
      ensures Extends(holds, parts[i], i)
    {
      assert IsPart(parts[i], sts, i, now);
      forall cs | holds(cs, i)
        ensures holds(cs + parts[i], i + 1)
      {
        PartsStep(cs, parts[i], sts, i, now);
      }
    }
    FoldParts(holds, parts, n);
  }

  lemma {:induction false} PartsOk(scope: Scope, sts: seq<TrackState>, shapes: Shapes, start: VDb, now: VDb)
    requires RunOk(scope, sts, shapes, start, now)
    ensures AllParts(Parts(sts, now), sts, now) && AllRead(sts, now)
  {
    forall t | 0 <= t < |sts|
      ensures IsPart(Parts(sts, now)[t], sts, t, now) && ReadsOk(sts, t, now)
    {
      TablePart(scope, sts, shapes, start, now, t);
      TableItemsRead(scope, sts, shapes, start, now, t);
    }
  }

  // ----- The tables as a database

  /** `db` holds exactly the watched rows of `v`, in serialized form. */
  ghost predicate Stores(db: Db, v: VDb, scope: Scope, shapes: Shapes)
    requires DbOk(v, shapes)
  {
    && (forall id :: id in v && Watched(scope, id) ==>
          RowFits(v[id], id, shapes) && Get(db, RowIdOf(id.table, v[id], shapes)) == Some(Enc(v[id])))
    && (forall rid :: rid in db ==> exists id :: Stored(v, id, rid, scope, shapes))
  }

  ghost predicate Stored(v: VDb, id: VId, rid: RowId, scope: Scope, shapes: Shapes) {
    id in v && Watched(scope, id) && RowFits(v[id], id, shapes) && rid == RowIdOf(id.table, v[id], shapes)
  }

  function RowIdOf(table: bytes, row: VRow, shapes: Shapes): RowId
    requires table in shapes && RowOk(row, shapes[table])
  {
    RowId(table, KeyOf(Enc(row), shapes[table]))
  }

  // Rows of different identity are stored apart.
  lemma {:induction false} OwnPlaces(v: VDb, shapes: Shapes, a: VId, b: VId)
    requires DbOk(v, shapes) && a in v && b in v && RowFits(v[a], a, shapes) && RowFits(v[b], b, shapes)
    ensures RowIdOf(a.table, v[a], shapes) == RowIdOf(b.table, v[b], shapes) <==> a == b
  {
    if a.table == b.table {
      SameKeys(v[a], v[b], shapes[a.table]);
    }
  }

  // One more row.
  lemma {:induction false} StoreOne(v: VDb, scope: Scope, shapes: Shapes, id: VId, rest: Db)
    requires DbOk(v, shapes) && id in v && RowFits(v[id], id, shapes) && DbOk(v - {id}, shapes)
    requires Stores(rest, v - {id}, scope, shapes)
    ensures Stores(if Watched(scope, id) then rest[RowIdOf(id.table, v[id], shapes) := Enc(v[id])] else rest, v, scope,
                   shapes)
  {
    var db := if Watched(scope, id) then rest[RowIdOf(id.table, v[id], shapes) := Enc(v[id])] else rest;
    var less := v - {id};
    forall x | x in v && Watched(scope, x)
      ensures RowFits(v[x], x, shapes) && Get(db, RowIdOf(x.table, v[x], shapes)) == Some(Enc(v[x]))
    {
      RowsFit(v, shapes, x);
      OwnPlaces(v, shapes, x, id);
      assert x != id ==> x in less && less[x] == v[x];
    }
    forall rid | rid in db
      ensures exists x :: Stored(v, x, rid, scope, shapes)
    {
      if rid in rest {
        var x :| Stored(less, x, rid, scope, shapes);
        assert Stored(v, x, rid, scope, shapes);
      } else {
        assert Stored(v, id, rid, scope, shapes);
      }
    }
  }

  /** Every database of rows that fit their tables is stored by some database of serialized rows. */
  lemma {:induction false} StoredDb(v: VDb, scope: Scope, shapes: Shapes) returns (db: Db)
    requires DbOk(v, shapes)
    ensures Stores(db, v, scope, shapes)
    decreases |v|
  {
    if v == map[] {
      db := map[];
    } else {
      var id :| id in v;
      RowsFit(v, shapes, id);
      var less := v - {id};
      assert |less| == |v| - 1;
      assert DbOk(less, shapes);
      var rest := StoredDb(less, scope, shapes);
      StoreOne(v, scope, shapes, id, rest);
      db := if Watched(scope, id) then rest[RowIdOf(id.table, v[id], shapes) := Enc(v[id])] else rest;
    }
  }

  /** The stored row under the identity any row with that key has. */
  lemma {:induction false} StoredAt(db: Db, v: VDb, scope: Scope, shapes: Shapes, id: VId, row: VRow)
    requires DbOk(v, shapes) && Stores(db, v, scope, shapes) && Watched(scope, id) && RowFits(row, id, shapes)
    ensures id in v ==> ValuesOk(v[id])
    ensures Get(db, RowIdOf(id.table, row, shapes)) == EncOpt(VGet(v, id))
  {
    var rid := RowIdOf(id.table, row, shapes);
    RowsFit(v, shapes, id);
    if id in v {
      SameKeys(v[id], row, shapes[id.table]);
    } else if rid in db {
      var other :| Stored(v, other, rid, scope, shapes);
      SameKeys(v[other], row, shapes[id.table]);
      assert false;
    }
  }

  // ----- Where a changeset leads

  /** Where the rows of a run land: as they are, except for watched columns that only change their zero. */
  ghost function Landing(scope: Scope, start: VDb, now: VDb): (r: VDb)
    ensures r.Keys == now.Keys
  {
    map id | id in now :: LandedRow(scope, start, now, id)
  }

  ghost function LandedRow(scope: Scope, start: VDb, now: VDb, id: VId): VRow
    requires id in now
  {
    if Watched(scope, id) && id in start && |start[id]| == |now[id]| then Settles(start[id], now[id]) else now[id]
  }

  lemma {:induction false} LandsAt(scope: Scope, start: VDb, now: VDb, id: VId)
    requires Watched(scope, id)
    ensures VGet(Landing(scope, start, now), id) == Landed(VGet(start, id), VGet(now, id))
  {
  }

  lemma {:induction false} LandingOk(scope: Scope, shapes: Shapes, start: VDb, now: VDb)
    requires DbOk(start, shapes) && DbOk(now, shapes)
    ensures DbOk(Landing(scope, start, now), shapes)
  {
    var land := Landing(scope, start, now);
    forall id | id in land
      ensures RowFits(land[id], id, shapes)
    {
      RowsFit(now, shapes, id);
      RowsFit(start, shapes, id);
      if Watched(scope, id) && id in start {
        SettlesOk(start[id], now[id], shapes[id.table]);
      }
    }
  }

  // Everything the final argument rests on: `land` stores where the rows land.
  ghost predicate Ends(scope: Scope, sts: seq<TrackState>, shapes: Shapes, start: VDb, now: VDb, from: Db, land: Db) {
    && RunOk(scope, sts, shapes, start, now) && DbOk(Landing(scope, start, now), shapes)
    && Stores(from, start, scope, shapes) && Stores(land, Landing(scope, start, now), scope, shapes)
  }

  lemma {:induction false} RowTaken(scope: Scope, sts: seq<TrackState>, shapes: Shapes, start: VDb, now: VDb,
                                    from: Db, land: Db, t: nat, l: Located)
    requires Ends(scope, sts, shapes, start, now, from, land) && t < |sts| && WrittenIn(l, sts, t, now)
    ensures l.WellFormed() && Effect(l, Get(from, l.Id())) == Done(Get(land, l.Id()))
  {
    var st, cs := sts[t], Recorded(sts[t]);
    RecordedFits(scope, sts, shapes, start, now, t);
    var i :| 0 <= i < |cs| && WrittenAs(cs[i], st.name, st.pkFlags, now, l);
    assert FitsIn(cs[i], st.name, st.pkFlags, start, now);
    WrittenTakes(cs[i], st.name, st.pkFlags, start, now, l);
    var id, row := VId(st.name, cs[i].pk), Witness(cs[i], Current(now, st.name, cs[i]));
    LandsAt(scope, start, now, id);
    StoredAt(from, start, scope, shapes, id, row);
    StoredAt(land, Landing(scope, start, now), scope, shapes, id, row);
  }

  // The recorded change of a tracked row.
  lemma {:induction false} TrackedAt(sts: seq<TrackState>, id: VId) returns (t: nat, i: nat)
    requires IsTracked(sts, id)
    ensures t < |sts| && sts[t].name == id.table && i < |Recorded(sts[t])| && Recorded(sts[t])[i].pk == id.pk
  {
    t :| 0 <= t < |sts| && sts[t].name == id.table && Has(sts[t], id.pk);
    var c :| c in Buckets.Spread(sts[t].buckets) && c.pk == id.pk;
    Buckets.FlattenIsSpread(sts[t].buckets);
    assert c in multiset(Recorded(sts[t]));
    i :| 0 <= i < |Recorded(sts[t])| && Recorded(sts[t])[i] == c;
  }

  // A watched row about which nothing is written lands where it started.
  lemma {:induction false} RowSame(scope: Scope, sts: seq<TrackState>, shapes: Shapes, start: VDb, now: VDb, id: VId,
                                   row: VRow)
    requires RunOk(scope, sts, shapes, start, now) && Watched(scope, id) && RowFits(row, id, shapes)
    requires forall t, l :: 0 <= t < |sts| && WrittenIn(l, sts, t, now) && l.WellFormed() ==>
                              l.Id() != RowIdOf(id.table, row, shapes)
    ensures VGet(start, id) == Landed(VGet(start, id), VGet(now, id))
  {
    if IsTracked(sts, id) {
      var t, i := TrackedAt(sts, id);
      var st, c := sts[t], Recorded(sts[t])[i];
      RecordedFits(scope, sts, shapes, start, now, t);
      assert FitsIn(c, st.name, st.pkFlags, start, now);
      EmittedTakes(c, st.name, st.pkFlags, VGet(start, id), VGet(now, id));
      var w := Written(c, st.name, st.pkFlags, now);
      if w.Some? {
        WrittenTakes(c, st.name, st.pkFlags, start, now, w.value);
        assert WrittenAs(Recorded(st)[i], st.name, st.pkFlags, now, w.value);
        assert WrittenIn(w.value, sts, t, now);
        SameKeys(Witness(c, VGet(now, id)), row, st.pkFlags);
        assert false;
      }
    } else if id in start {
      SettlesIff(start[id], start[id]);
    }
  }

  lemma {:induction false} RowKept(scope: Scope, sts: seq<TrackState>, shapes: Shapes, start: VDb, now: VDb, from: Db,
                                   land: Db, rid: RowId)
    requires Ends(scope, sts, shapes, start, now, from, land)
    requires forall t, l :: 0 <= t < |sts| && WrittenIn(l, sts, t, now) && l.WellFormed() ==> l.Id() != rid
    ensures Get(land, rid) == Get(from, rid)
  {
    if rid in from || rid in land {
      var v := if rid in from then start else Landing(scope, start, now);
      var id :| Stored(v, id, rid, scope, shapes);
      RowSame(scope, sts, shapes, start, now, id, v[id]);
      LandsAt(scope, start, now, id);
      StoredAt(from, start, scope, shapes, id, v[id]);
      StoredAt(land, Landing(scope, start, now), scope, shapes, id, v[id]);
    }
  }

  lemma {:induction false} SessionLeads(scope: Scope, sts: seq<TrackState>, shapes: Shapes, start: VDb, now: VDb,
                                        from: Db, land: Db, cs: seq<Located>)
    requires Ends(scope, sts, shapes, start, now, from, land) && AreParts(cs, sts, |sts|, now)
    ensures Apply(from, cs) == Clean(land)
  {
    forall i | 0 <= i < |cs|
      ensures Effect(cs[i], Get(from, cs[i].Id())) == Done(Get(land, cs[i].Id()))
    {
      assert cs[i] in cs;
      var t :| 0 <= t < |sts| && cs[i].table == sts[t].name && WrittenIn(cs[i], sts, t, now);
      RowTaken(scope, sts, shapes, start, now, from, land, t, cs[i]);
    }
    forall rid | !Touches(cs, rid)
      ensures Get(land, rid) == Get(from, rid)
    {
      forall t, l | 0 <= t < |sts| && WrittenIn(l, sts, t, now) && l.WellFormed()
        ensures l.Id() != rid
      {
        assert l in cs;
      }
      RowKept(scope, sts, shapes, start, now, from, land, rid);
    }
    ApplyIsLeads(from, cs, land);
  }

  /** The bytes written for a session are a changeset with one change per row; applied to the watched
      rows at the start of the run it gives exactly where they land. */
  lemma {:induction false} ChangesetLands(scope: Scope, sts: seq<TrackState>, shapes: Shapes, start: VDb, now: VDb,
                                          from: Db, land: Db)
    requires Ends(scope, sts, shapes, start, now, from, land)
    ensures StatesEmittable(sts, now)
    ensures var out := Unparse(SessionItems(sts, |sts|, now, false));
            && Items(out, 0).Ok? && AllCanonical(ChangesOf(out)) && Distinct(ChangesOf(out))
            && Apply(from, ChangesOf(out)) == Clean(land)
  {
    Emits(scope, sts, shapes, start, now);
    PartsOk(scope, sts, shapes, start, now);
    SessionReads(sts, now, |sts|);
    UnparseThenParse(SessionItems(sts, |sts|, now, false), 0);
    PartsDistinct(Parts(sts, now), sts, now, |sts|);
    SessionLeads(scope, sts, shapes, start, now, from, land, CatAll(Parts(sts, now), |sts|));
  }

  // ----- When that is the end of the run

  /** No watched row has a column that only goes from one zero to the other. */
  ghost predicate NoFlips(scope: Scope, start: VDb, now: VDb) {
    forall id :: id in start && id in now && Watched(scope, id) ==> NoFlip(start[id], now[id])
  }

  // Databases that store the same watched rows are the same.
  lemma {:induction false} StoredSame(a: Db, b: Db, v: VDb, w: VDb, scope: Scope, shapes: Shapes)
    requires DbOk(v, shapes) && DbOk(w, shapes) && Stores(a, v, scope, shapes) && Stores(b, w, scope, shapes)
    ensures a == b <==> forall id :: Watched(scope, id) ==> VGet(v, id) == VGet(w, id)
  {
    if forall id :: Watched(scope, id) ==> VGet(v, id) == VGet(w, id) {
      StoredWithin(a, b, v, w, scope, shapes);
      StoredWithin(b, a, w, v, scope, shapes);
    }
    if a == b {
      forall id | Watched(scope, id)
        ensures VGet(v, id) == VGet(w, id)
      {
        StoredEqual(a, v, w, scope, shapes, id);
      }
    }
  }

  lemma {:induction false} StoredWithin(a: Db, b: Db, v: VDb, w: VDb, scope: Scope, shapes: Shapes)
    requires DbOk(v, shapes) && DbOk(w, shapes) && Stores(a, v, scope, shapes) && Stores(b, w, scope, shapes)
    requires forall id :: Watched(scope, id) ==> VGet(v, id) == VGet(w, id)
    ensures forall rid :: rid in a ==> rid in b && a[rid] == b[rid]
  {
    forall rid | rid in a
      ensures rid in b && a[rid] == b[rid]
    {
      var id :| Stored(v, id, rid, scope, shapes);
      assert VGet(v, id) == VGet(w, id);
      StoredAt(a, v, scope, shapes, id, v[id]);
      StoredAt(b, w, scope, shapes, id, v[id]);
    }
  }

  lemma {:induction false} StoredEqual(a: Db, v: VDb, w: VDb, scope: Scope, shapes: Shapes, id: VId)
    requires DbOk(v, shapes) && DbOk(w, shapes) && Stores(a, v, scope, shapes) && Stores(a, w, scope, shapes)
    requires Watched(scope, id)
    ensures VGet(v, id) == VGet(w, id)
  {
    RowsFit(v, shapes, id);
    RowsFit(w, shapes, id);
    if id in v || id in w {
      var row := if id in v then v[id] else w[id];
      StoredAt(a, v, scope, shapes, id, row);
      StoredAt(a, w, scope, shapes, id, row);
      if id in v && id in w {
        EncInjective(v[id], w[id]);
      }
    }
  }

  // Rows land where they are exactly if none of them flips a zero.
  lemma {:induction false} LandingIff(scope: Scope, shapes: Shapes, start: VDb, now: VDb)
    requires DbOk(start, shapes) && DbOk(now, shapes)
    ensures (forall id :: Watched(scope, id) ==> VGet(Landing(scope, start, now), id) == VGet(now, id))
       <==> NoFlips(scope, start, now)
  {
    forall id | Watched(scope, id)
      ensures VGet(Landing(scope, start, now), id) == VGet(now, id)
         <==> (id in start && id in now ==> NoFlip(start[id], now[id]))
    {
      LandsAt(scope, start, now, id);
      RowsFit(start, shapes, id);
      RowsFit(now, shapes, id);
      if id in start && id in now {
        SettlesIff(start[id], now[id]);
      }
    }
  }

  /** The bytes written for a session are a changeset with one change per row. Applied to the watched rows at the
      start of the run it gives exactly the watched rows at its end, exactly if none of them has a column that
      only goes from one zero to the other. */
  lemma {:induction false} ChangesetMeans(scope: Scope, sts: seq<TrackState>, shapes: Shapes, start: VDb, now: VDb,
                                          from: Db, to: Db)
    requires RunOk(scope, sts, shapes, start, now)
    requires Stores(from, start, scope, shapes) && Stores(to, now, scope, shapes)
    ensures StatesEmittable(sts, now)
    ensures var out := Unparse(SessionItems(sts, |sts|, now, false));
            && Items(out, 0).Ok? && AllCanonical(ChangesOf(out)) && Distinct(ChangesOf(out))
            && (Apply(from, ChangesOf(out)) == Clean(to) <==> NoFlips(scope, start, now))
  {
    LandingOk(scope, shapes, start, now);
    var land := StoredDb(Landing(scope, start, now), scope, shapes);
    ChangesetLands(scope, sts, shapes, start, now, from, land);
    StoredSame(land, to, Landing(scope, start, now), now, scope, shapes);
    LandingIff(scope, shapes, start, now);
  }

  /** A run under a fresh session, and its changeset: whatever the run, applying it to the start gives the end
      exactly if no watched row has a column that only goes from one zero to the other. */
  method RunAndSerialize(s: SessionState, db: VDb, shapes: Shapes, ops: seq<Op>, ghost from: Db, ghost to: Db)
    returns (out: bytes)
    requires s.tables == [] && DbOk(db, shapes) && ShapesOk(shapes) && Runs(db, shapes, ops)
    requires Stores(from, db, s.Current(), shapes)
    requires DbOk(Final(db, shapes, ops), shapes) && Stores(to, Final(db, shapes, ops), s.Current(), shapes)
    modifies s
    ensures Items(out, 0).Ok? && AllCanonical(ChangesOf(out)) && Distinct(ChangesOf(out))
    ensures Apply(from, ChangesOf(out)) == Clean(to) <==> NoFlips(s.Current(), db, Final(db, shapes, ops))
  {
    var final, sts := Run(s, db, shapes, ops);
    ChangesetMeans(s.Current(), sts, shapes, db, final, from, to);
    out := Serialize(s, final, false, sts);
  }

  /** The same without a word about how rows are stored, and where the changeset leads in every case: to the
      final rows, except for watched columns that only change their zero. */
  method RunStored(s: SessionState, db: VDb, shapes: Shapes, ops: seq<Op>)
    returns (out: bytes, ghost from: Db, ghost land: Db)
    requires s.tables == [] && DbOk(db, shapes) && ShapesOk(shapes) && Runs(db, shapes, ops)
    modifies s
    ensures DbOk(Landing(s.Current(), db, Final(db, shapes, ops)), shapes) && Stores(from, db, s.Current(), shapes)
    ensures Stores(land, Landing(s.Current(), db, Final(db, shapes, ops)), s.Current(), shapes)
    ensures Items(out, 0).Ok? && AllCanonical(ChangesOf(out)) && Distinct(ChangesOf(out))
    ensures Apply(from, ChangesOf(out)) == Clean(land)
  {
    var final, sts := Run(s, db, shapes, ops);
    ghost var rows := Landing(s.Current(), db, final);
    LandingOk(s.Current(), shapes, db, final);
    from := StoredDb(db, s.Current(), shapes);
    land := StoredDb(rows, s.Current(), shapes);
    ChangesetLands(s.Current(), sts, shapes, db, final, from, land);
    out := Serialize(s, final, false, sts);
  }
}
