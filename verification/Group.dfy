/** What the contents of a change group stand for while changesets are absorbed into it. */
module Group {
  import opened Bytes
  import opened Changeset
  import opened Applying
  import opened Coalesce
  import opened Buckets
  import opened Concat

  // A table of the group: its header and its changes.
  datatype View = View(hdr: Header, contents: multiset<GroupChange>)

  ghost predicate ViewOk(v: View) {
    && |v.hdr.pk| == v.hdr.ncol && (forall c :: c in v.contents ==> GoodChange(v.hdr, c))
    && OnePerKey(v.contents, KeyFn(v.hdr))
  }

  ghost predicate HasRow(v: View, key: seq<bytes>) {
    exists c :: c in v.contents && RowKey(v.hdr, c) == key
  }

  // What a change of the group does to its row takes it from where it was in `db` to where it is in `d`.
  ghost predicate Carries(h: Header, c: GroupChange, db: Db, d: Db) {
    && GoodChange(h, c)
    && Effect(Meaning(h, c), Get(db, RowId(h.name, RowKey(h, c)))) == Done(Get(d, RowId(h.name, RowKey(h, c))))
  }

  /** The changes of the table lead from `db` to `d`, and rows without a change are the same in both. */
  ghost predicate TableTracks(v: View, db: Db, d: Db) {
    && (forall c :: c in v.contents ==> Carries(v.hdr, c, db, d))
    && (forall key :: !HasRow(v, key) ==> Get(d, RowId(v.hdr.name, key)) == Get(db, RowId(v.hdr.name, key)))
  }

  ghost predicate HasTable(vs: seq<View>, name: bytes) {
    exists i :: 0 <= i < |vs| && vs[i].hdr.name == name
  }

  ghost predicate GroupOk(vs: seq<View>) {
    (forall i {:trigger ViewOk(vs[i])} :: 0 <= i < |vs| ==> ViewOk(vs[i])) && DistinctNames(vs)
  }

  ghost predicate DistinctNames(vs: seq<View>) {
    forall i, j :: 0 <= i < j < |vs| ==> vs[i].hdr.name != vs[j].hdr.name
  }

  /** The group as a whole leads from `db` to `d`. */
  ghost predicate Tracks(vs: seq<View>, db: Db, d: Db) {
    && (forall i {:trigger TableTracks(vs[i], db, d)} :: 0 <= i < |vs| ==> TableTracks(vs[i], db, d))
    && (forall id: RowId :: !HasTable(vs, id.table) ==> Get(d, id) == Get(db, id))
  }

  lemma {:induction false} MeaningId(h: Header, c: GroupChange)
    requires ChangeOk(h, c)
    ensures Meaning(h, c).WellFormed() && Meaning(h, c).Id() == RowId(h.name, RowKey(h, c))
  {
    MeaningWellFormed(h, c);
  }

  // ----- One change more

  // A change of another row carries on as before.
  lemma {:induction false} CarriesOn(h: Header, c: GroupChange, db: Db, d: Db, id: RowId, x: Option<Row>)
    requires Carries(h, c, db, d) && RowId(h.name, RowKey(h, c)) != id
    ensures Carries(h, c, db, Put(d, id, x))
  {
    GetPut(d, id, x, RowId(h.name, RowKey(h, c)));
  }

  lemma {:induction false} AddFirst(v: View, c: GroupChange, after: View, db: Db, d: Db, x: Option<Row>)
    requires ViewOk(v) && TableTracks(v, db, d) && GoodChange(v.hdr, c) && !HasRow(v, RowKey(v.hdr, c))
    requires after == View(v.hdr, v.contents + multiset{c})
    requires Effect(Meaning(v.hdr, c), Get(d, RowId(v.hdr.name, RowKey(v.hdr, c)))) == Done(x)
    ensures TableTracks(after, db, Put(d, RowId(v.hdr.name, RowKey(v.hdr, c)), x))
  {
    var h, id := v.hdr, RowId(v.hdr.name, RowKey(v.hdr, c));
    var d' := Put(d, id, x);
    forall y | y in after.contents
      ensures Carries(h, y, db, d')
    {
      if y in v.contents {
        CarriesOn(h, y, db, d, id, x);
      } else {
        GetPut(d, id, x, id);
      }
    }
    forall key | !HasRow(after, key)
      ensures Get(d', RowId(h.name, key)) == Get(db, RowId(h.name, key))
    {
      assert c in after.contents;
      assert key != RowKey(h, c);
      assert HasRow(v, key) ==> exists y :: y in after.contents && RowKey(h, y) == key;
      GetPut(d, id, x, RowId(h.name, key));
    }
  }

  // What remains of a table without the change `e`, away from its row.
  lemma {:induction false} WithoutRow(v: View, e: GroupChange)
    requires ViewOk(v) && e in v.contents
    ensures forall y :: y in v.contents - multiset{e} <==> y in v.contents && y != e
    ensures forall y :: y in v.contents - multiset{e} ==> RowKey(v.hdr, y) != RowKey(v.hdr, e)
  {
    OneLess(v.contents, KeyFn(v.hdr), e);
    assert forall y :: KeyFn(v.hdr)(y) == RowKey(v.hdr, y);
  }

  lemma {:induction false} AddFolded(v: View, c: GroupChange, e: GroupChange, r: Option<GroupChange>, after: View,
                                     db: Db, d: Db, x: Option<Row>)
    requires ViewOk(v) && TableTracks(v, db, d) && Replaces(v.hdr, v.contents, c, e, r, after.contents)
    requires after.hdr == v.hdr
    requires Effect(Meaning(v.hdr, c), Get(d, RowId(v.hdr.name, RowKey(v.hdr, c)))) == Done(x)
    ensures TableTracks(after, db, Put(d, RowId(v.hdr.name, RowKey(v.hdr, c)), x))
  {
    var h, id := v.hdr, RowId(v.hdr.name, RowKey(v.hdr, c));
    var d' := Put(d, id, x);
    assert Carries(h, e, db, d);
    SameKeySameRow(h, e, c);
    MergeMeans(Meaning(h, e), Meaning(h, c), Get(db, id), Get(d, id), x);
    WithoutRow(v, e);
    GetPut(d, id, x, id);
    forall y | y in after.contents
      ensures Carries(h, y, db, d')
    {
      if y in v.contents - multiset{e} {
        CarriesOn(h, y, db, d, id, x);
      } else {
        assert r == Some(y);
        MergedIsGood(h, e, c, y);
      }
    }
    forall key | key != RowKey(h, c) && HasRow(v, key)
      ensures HasRow(after, key)
    {
      var y :| y in v.contents && RowKey(h, y) == key;
      assert y in after.contents;
    }
    if r.Some? {
      MergedIsGood(h, e, c, r.value);
      assert r.value in after.contents && HasRow(after, RowKey(h, c));
    }
    forall key | !HasRow(after, key)
      ensures Get(d', RowId(h.name, key)) == Get(db, RowId(h.name, key))
    {
      GetPut(d, id, x, RowId(h.name, key));
    }
  }

  /** Adding a change that applies to the current state carries the table to the next one. */
  lemma {:induction false} AddTracks(v: View, c: GroupChange, after: View, db: Db, d: Db, x: Option<Row>)
    requires ViewOk(v) && TableTracks(v, db, d) && GoodChange(v.hdr, c)
    requires after.hdr == v.hdr && AddsTo(v.hdr, v.contents, c, after.contents)
    requires Effect(Meaning(v.hdr, c), Get(d, RowId(v.hdr.name, RowKey(v.hdr, c)))) == Done(x)
    ensures TableTracks(after, db, Put(d, RowId(v.hdr.name, RowKey(v.hdr, c)), x))
  {
    if forall e :: e in v.contents ==> RowKey(v.hdr, e) != RowKey(v.hdr, c) {
      AddFirst(v, c, after, db, d, x);
    } else {
      var e, r :| Replaces(v.hdr, v.contents, c, e, r, after.contents);
      AddFolded(v, c, e, r, after, db, d, x);
    }
  }

  lemma {:induction false} OtherTable(v: View, db: Db, d: Db, id: RowId, x: Option<Row>)
    requires TableTracks(v, db, d) && id.table != v.hdr.name
    ensures TableTracks(v, db, Put(d, id, x))
  {
    forall c | c in v.contents
      ensures Carries(v.hdr, c, db, Put(d, id, x))
    {
      CarriesOn(v.hdr, c, db, d, id, x);
    }
    forall key | !HasRow(v, key)
      ensures Get(Put(d, id, x), RowId(v.hdr.name, key)) == Get(db, RowId(v.hdr.name, key))
    {
      GetPut(d, id, x, RowId(v.hdr.name, key));
    }
  }

  /** The same for the whole group. */
  lemma {:induction false} GroupTracks(vs: seq<View>, t: nat, c: GroupChange, after: View, db: Db, d: Db,
                                       x: Option<Row>)
    requires GroupOk(vs) && Tracks(vs, db, d) && t < |vs| && GoodChange(vs[t].hdr, c)
    requires after.hdr == vs[t].hdr && AddsTo(vs[t].hdr, vs[t].contents, c, after.contents)
    requires Effect(Meaning(vs[t].hdr, c), Get(d, RowId(vs[t].hdr.name, RowKey(vs[t].hdr, c)))) == Done(x)
    ensures Tracks(vs[t := after], db, Put(d, RowId(vs[t].hdr.name, RowKey(vs[t].hdr, c)), x))
  {
    AddTracks(vs[t], c, after, db, d, x);
    TableStep(vs, t, after, db, d, RowId(vs[t].hdr.name, RowKey(vs[t].hdr, c)), x);
  }

  lemma {:induction false} TableStep(vs: seq<View>, t: nat, after: View, db: Db, d: Db, id: RowId, x: Option<Row>)
    requires GroupOk(vs) && Tracks(vs, db, d) && t < |vs| && after.hdr == vs[t].hdr && id.table == after.hdr.name
    requires TableTracks(after, db, Put(d, id, x))
    ensures Tracks(vs[t := after], db, Put(d, id, x))
  {
    var d', vs' := Put(d, id, x), vs[t := after];
    forall i | 0 <= i < |vs'|
      ensures TableTracks(vs'[i], db, d')
    {
      if i != t {
        OtherTable(vs[i], db, d, id, x);
      }
    }
    forall o: RowId | !HasTable(vs', o.table)
      ensures Get(d', o) == Get(db, o)
    {
      SameTables(vs, t, after, o.table);
      GetPut(d, id, x, o);
    }
  }

  lemma {:induction false} SameTables(vs: seq<View>, t: nat, after: View, name: bytes)
    requires t < |vs| && after.hdr == vs[t].hdr
    ensures HasTable(vs[t := after], name) <==> HasTable(vs, name)
    ensures HasTable(vs, after.hdr.name)
  {
    var vs' := vs[t := after];
    assert forall i :: 0 <= i < |vs| ==> vs'[i].hdr == vs[i].hdr;
    if i :| 0 <= i < |vs| && vs[i].hdr.name == name {
      assert vs'[i].hdr.name == name;
    }
  }
}
