/** Writing a change group out, and what concatenation as a whole means. */
module ConcatOut {
  import opened Seqs
  import opened Bytes
  import opened Changeset
  import opened Applying
  import opened Buckets
  import opened Concat
  import opened Group
  import opened ConcatRun

  // ----- The items written

  function ItemOf(h: Header, c: GroupChange): Item {
    Change(c.op, c.indirect, FieldsOf(c, h.ncol))
  }

  function ItemsOf(h: Header, cs: seq<GroupChange>): seq<Item> {
    if cs == [] then [] else [ItemOf(h, cs[0])] + ItemsOf(h, cs[1..])
  }

  function Meanings(h: Header, cs: seq<GroupChange>): (r: seq<Located>)
    ensures |r| == |cs|
  {
    seq(|cs|, i requires 0 <= i < |cs| => Meaning(h, cs[i]))
  }

  function TableItems(h: Header, cs: seq<GroupChange>): seq<Item> {
    if cs == [] then [] else [Head(h)] + ItemsOf(h, cs)
  }

  function GroupItems(sts: seq<TableState>): seq<Item> {
    if sts == [] then []
    else TableItems(sts[0].hdr, Flatten(sts[0].buckets)) + GroupItems(sts[1..])
  }

  function GroupMeanings(sts: seq<TableState>): seq<Located> {
    if sts == [] then []
    else Meanings(sts[0].hdr, Flatten(sts[0].buckets)) + GroupMeanings(sts[1..])
  }

  // ----- Reading it back

  ghost predicate AllGood(h: Header, cs: seq<GroupChange>) {
    forall i :: 0 <= i < |cs| ==> GoodChange(h, cs[i])
  }

  lemma {:induction false} ChangesReadBack(h: Header, cs: seq<GroupChange>, rest: seq<Item>)
    requires AllGood(h, cs) && AreItems(rest, h.ncol)
    ensures AreItems(ItemsOf(h, cs) + rest, h.ncol)
    ensures Locate(ItemsOf(h, cs) + rest, h) == Meanings(h, cs) + Locate(rest, h)
    decreases cs
  {
    if cs == [] {
      assert ItemsOf(h, cs) + rest == rest;
    } else {
      var more := ItemsOf(h, cs[1..]) + rest;
      ChangesReadBack(h, cs[1..], rest);
      Assoc([ItemOf(h, cs[0])], ItemsOf(h, cs[1..]), rest);
      OneReadsBack(h, cs[0], more);
      MeaningsCons(h, cs);
      Assoc([Meaning(h, cs[0])], Meanings(h, cs[1..]), Locate(rest, h));
    }
  }

  lemma {:induction false} MeaningsCons(h: Header, cs: seq<GroupChange>)
    requires cs != []
    ensures Meanings(h, cs) == [Meaning(h, cs[0])] + Meanings(h, cs[1..])
  {
  }

  lemma {:induction false} OneReadsBack(h: Header, c: GroupChange, more: seq<Item>)
    requires GoodChange(h, c) && AreItems(more, h.ncol)
    ensures AreItems([ItemOf(h, c)] + more, h.ncol)
    ensures Locate([ItemOf(h, c)] + more, h) == [Meaning(h, c)] + Locate(more, h)
  {
    assert ([ItemOf(h, c)] + more)[1..] == more;
    MeaningWellFormed(h, c);
  }

  // A header and the items under it.
  lemma {:induction false} HeadedReads(h: Header, more: seq<Item>, ncol: nat, k: Header, cs: seq<Located>)
    requires IsHeader(h) && AreItems(more, h.ncol) && Locate(more, h) == cs
    ensures AreItems([Head(h)] + more, ncol) && Locate([Head(h)] + more, k) == cs
  {
    assert ([Head(h)] + more)[1..] == more;
  }

  lemma {:induction false} TableReadsBack(h: Header, cs: seq<GroupChange>, rest: seq<Item>, ncol: nat, k: Header)
    requires AllGood(h, cs) && IsHeader(h) && (forall n :: AreItems(rest, n))
    requires forall j :: Locate(rest, j) == Locate(rest, NO_TABLE)
    ensures AreItems(TableItems(h, cs) + rest, ncol)
    ensures Locate(TableItems(h, cs) + rest, k) == Meanings(h, cs) + Locate(rest, NO_TABLE)
  {
    if cs == [] {
      assert TableItems(h, cs) + rest == rest;
    } else {
      var more := ItemsOf(h, cs) + rest;
      assert AreItems(rest, h.ncol) && Locate(rest, h) == Locate(rest, NO_TABLE);
      ChangesReadBack(h, cs, rest);
      Assoc([Head(h)], ItemsOf(h, cs), rest);
      HeadedReads(h, more, ncol, k, Locate(more, h));
    }
  }

  lemma {:induction false} FlattenGood(st: TableState)
    requires TableOk(st.hdr, st.buckets, st.nentry)
    ensures AllGood(st.hdr, Flatten(st.buckets))
  {
    FlattenIsSpread(st.buckets);
    var cs := Flatten(st.buckets);
    forall i | 0 <= i < |cs|
      ensures GoodChange(st.hdr, cs[i])
    {
      assert cs[i] in multiset(cs);
    }
  }

  ghost predicate HeadersOk(sts: seq<TableState>) {
    forall i {:trigger IsHeader(sts[i].hdr)} :: 0 <= i < |sts| ==> IsHeader(sts[i].hdr)
  }

  /** The written group is read back as its changes. */
  lemma {:induction false} GroupReadsBack(sts: seq<TableState>)
    requires StatesOk(sts) && HeadersOk(sts)
    ensures forall n :: AreItems(GroupItems(sts), n)
    ensures forall k :: Locate(GroupItems(sts), k) == GroupMeanings(sts)
    decreases sts
  {
    if sts != [] {
      var st, rest := sts[0], sts[1..];
      assert TableOk(st.hdr, st.buckets, st.nentry) && IsHeader(st.hdr);
      assert forall i :: 0 <= i < |rest| ==> rest[i] == sts[i + 1];
      GroupReadsBack(rest);
      FlattenGood(st);
      forall n
        ensures AreItems(GroupItems(sts), n)
      {
        TableReadsBack(st.hdr, Flatten(st.buckets), GroupItems(rest), n, NO_TABLE);
      }
      forall k
        ensures Locate(GroupItems(sts), k) == GroupMeanings(sts)
      {
        TableReadsBack(st.hdr, Flatten(st.buckets), GroupItems(rest), 0, k);
        assert Locate(GroupItems(rest), NO_TABLE) == GroupMeanings(rest);
      }
    }
  }

  // ----- One change per row

  ghost predicate InTable(cs: seq<Located>, name: bytes) {
    forall i :: 0 <= i < |cs| ==> cs[i].table == name
  }

  lemma {:induction false} TableDistinct(h: Header, cs: seq<GroupChange>)
    requires AllGood(h, cs) && OnePerKey(multiset(cs), KeyFn(h))
    ensures AllWellFormed(Meanings(h, cs)) && AllCanonical(Meanings(h, cs)) && InTable(Meanings(h, cs), h.name)
    ensures Distinct(Meanings(h, cs))
  {
    var ls := Meanings(h, cs);
    forall i | 0 <= i < |cs|
      ensures ls[i].WellFormed() && ls[i].Id() == RowId(h.name, RowKey(h, cs[i]))
    {
      MeaningId(h, cs[i]);
    }
    forall i, j | 0 <= i < j < |ls|
      ensures ls[i].Id() != ls[j].Id()
    {
      if RowKey(h, cs[i]) == RowKey(h, cs[j]) {
        assert KeyFn(h)(cs[i]) == KeyFn(h)(cs[j]);
        assert cs[i] in multiset(cs) && cs[j] in multiset(cs);
        Twice(cs, i, j);
        assert false;
      }
    }
  }

  ghost predicate TablesAmong(cs: seq<Located>, sts: seq<TableState>) {
    forall i :: 0 <= i < |cs| ==> exists t :: 0 <= t < |sts| && sts[t].hdr.name == cs[i].table
  }

  ghost predicate NamesDiffer(sts: seq<TableState>) {
    forall i, j :: 0 <= i < j < |sts| ==> sts[i].hdr.name != sts[j].hdr.name
  }

  lemma {:induction false} GroupDistinct(sts: seq<TableState>)
    requires StatesOk(sts) && NamesDiffer(sts)
    ensures AllWellFormed(GroupMeanings(sts)) && AllCanonical(GroupMeanings(sts)) && Distinct(GroupMeanings(sts))
    ensures TablesAmong(GroupMeanings(sts), sts)
    decreases sts
  {
    if sts != [] {
      var st, rest := sts[0], sts[1..];
      assert forall i :: 0 <= i < |rest| ==> rest[i] == sts[i + 1];
      assert TableOk(st.hdr, st.buckets, st.nentry);
      GroupDistinct(rest);
      FlattenGood(st);
      FlattenIsSpread(st.buckets);
      TableDistinct(st.hdr, Flatten(st.buckets));
      var a, b := Meanings(st.hdr, Flatten(st.buckets)), GroupMeanings(rest);
      forall i, j | 0 <= i < |a| && 0 <= j < |b|
        ensures a[i].table != b[j].table
      {
        var t :| 0 <= t < |rest| && rest[t].hdr.name == b[j].table;
        assert sts[t + 1].hdr.name == b[j].table && sts[0].hdr.name == a[i].table;
      }
      DistinctCat(a, b);
      AmongMore(a, b, sts);
    }
  }

  lemma {:induction false} AmongMore(a: seq<Located>, b: seq<Located>, sts: seq<TableState>)
    requires sts != [] && InTable(a, sts[0].hdr.name) && TablesAmong(b, sts[1..])
    ensures TablesAmong(a + b, sts)
  {
    var c := a + b;
    forall i | 0 <= i < |c|
      ensures exists t :: 0 <= t < |sts| && sts[t].hdr.name == c[i].table
    {
      if i < |a| {
        assert sts[0].hdr.name == c[i].table;
      } else {
        var t :| 0 <= t < |sts[1..]| && sts[1..][t].hdr.name == b[i - |a|].table;
        assert sts[t + 1].hdr.name == c[i].table;
      }
    }
  }

  // ----- What the written changes lead to

  lemma {:induction false} InGroup(sts: seq<TableState>, t: nat, c: GroupChange)
    requires t < |sts| && c in Spread(sts[t].buckets)
    ensures Meaning(sts[t].hdr, c) in GroupMeanings(sts)
    decreases sts
  {
    if t == 0 {
      FlattenIsSpread(sts[0].buckets);
      var cs := Flatten(sts[0].buckets);
      assert c in multiset(cs);
      var i :| 0 <= i < |cs| && cs[i] == c;
      assert Meanings(sts[0].hdr, cs)[i] == Meaning(sts[0].hdr, c);
    } else {
      InGroup(sts[1..], t - 1, c);
    }
  }

  lemma {:induction false} FromGroup(sts: seq<TableState>, l: Located) returns (t: nat, c: GroupChange)
    requires l in GroupMeanings(sts)
    ensures t < |sts| && c in Spread(sts[t].buckets) && l == Meaning(sts[t].hdr, c)
    decreases sts
  {
    var cs := Flatten(sts[0].buckets);
    if l in Meanings(sts[0].hdr, cs) {
      var i :| 0 <= i < |cs| && Meanings(sts[0].hdr, cs)[i] == l;
      FlattenIsSpread(sts[0].buckets);
      assert cs[i] in multiset(cs);
      t, c := 0, cs[i];
    } else {
      t, c := FromGroup(sts[1..], l);
      t := t + 1;
    }
  }

  lemma {:induction false} WrittenEffect(sts: seq<TableState>, db: Db, d: Db, l: Located)
    requires Tracks(Views(sts), db, d) && l in GroupMeanings(sts)
    ensures l.WellFormed() && Effect(l, Get(db, l.Id())) == Done(Get(d, l.Id()))
  {
    var t, c := FromGroup(sts, l);
    var v := Views(sts)[t];
    assert v == ViewOf(sts[t]) && TableTracks(v, db, d);
    assert Carries(v.hdr, c, db, d);
    MeaningId(v.hdr, c);
  }

  lemma {:induction false} HasRowTouches(sts: seq<TableState>, t: nat, key: seq<bytes>)
    requires t < |sts| && StatesOk(sts) && AllWellFormed(GroupMeanings(sts)) && HasRow(ViewOf(sts[t]), key)
    ensures Touches(GroupMeanings(sts), RowId(sts[t].hdr.name, key))
  {
    var h, cs := sts[t].hdr, GroupMeanings(sts);
    assert TableOk(h, sts[t].buckets, sts[t].nentry);
    var c :| c in Spread(sts[t].buckets) && RowKey(h, c) == key;
    MeaningId(h, c);
    InGroup(sts, t, c);
    var i :| 0 <= i < |cs| && cs[i] == Meaning(h, c);
    assert cs[i].Id() == RowId(h.name, key);
  }

  lemma {:induction false} UnwrittenRow(sts: seq<TableState>, db: Db, d: Db, id: RowId)
    requires Tracks(Views(sts), db, d) && StatesOk(sts) && AllWellFormed(GroupMeanings(sts))
    requires !Touches(GroupMeanings(sts), id)
    ensures Get(d, id) == Get(db, id)
  {
    var vs := Views(sts);
    if t :| 0 <= t < |vs| && vs[t].hdr.name == id.table {
      assert vs[t] == ViewOf(sts[t]) && TableTracks(vs[t], db, d);
      assert TableOk(sts[t].hdr, sts[t].buckets, sts[t].nentry);
      if HasRow(vs[t], id.key) {
        HasRowTouches(sts, t, id.key);
        assert false;
      }
      assert Get(d, RowId(vs[t].hdr.name, id.key)) == Get(db, RowId(vs[t].hdr.name, id.key));
    } else {
      assert !HasTable(vs, id.table);
    }
  }

  /** The written changes lead from where the group started to where it stands. */
  lemma {:induction false} GroupLeads(sts: seq<TableState>, db: Db, d: Db)
    requires Tracks(Views(sts), db, d) && StatesOk(sts) && NamesDiffer(sts)
    ensures AllWellFormed(GroupMeanings(sts)) && Apply(db, GroupMeanings(sts)) == Clean(d)
  {
    var cs := GroupMeanings(sts);
    GroupDistinct(sts);
    forall i | 0 <= i < |cs|
      ensures Effect(cs[i], Get(db, cs[i].Id())) == Done(Get(d, cs[i].Id()))
    {
      WrittenEffect(sts, db, d, cs[i]);
    }
    forall id | !Touches(cs, id)
      ensures Get(d, id) == Get(db, id)
    {
      UnwrittenRow(sts, db, d, id);
    }
    ApplyIsLeads(db, cs, d);
  }

  // ----- Writing

  lemma {:induction false} ItemsCat(h: Header, a: seq<GroupChange>, b: seq<GroupChange>)
    ensures ItemsOf(h, a + b) == ItemsOf(h, a) + ItemsOf(h, b)
    decreases a
  {
    if a == [] {
      assert a + b == b;
    } else {
      ItemsCat(h, a[1..], b);
      assert (a + b)[1..] == a[1..] + b && (a + b)[0] == a[0];
      Assoc([ItemOf(h, a[0])], ItemsOf(h, a[1..]), ItemsOf(h, b));
    }
  }

  // The bytes of these changes.
  ghost function Spelled(h: Header, cs: seq<GroupChange>): bytes {
    Unparse(ItemsOf(h, cs))
  }

  lemma {:induction false} SpelledCat(h: Header, a: seq<GroupChange>, b: seq<GroupChange>)
    ensures Spelled(h, a + b) == Spelled(h, a) + Spelled(h, b)
  {
    ItemsCat(h, a, b);
    UnparseCat(ItemsOf(h, a), ItemsOf(h, b));
  }

  lemma {:induction false} SpelledOne(h: Header, c: GroupChange)
    requires ChangeOk(h, c)
    ensures Spelled(h, [c]) == [c.op, c.indirect] + c.record
  {
    assert [c][1..] == [];
    assert ItemsOf(h, [c]) == [ItemOf(h, c)] + [];
    UnparseCons(ItemOf(h, c), []);
  }

  method EmitChain(h: Header, chain: seq<GroupChange>) returns (out: bytes)
    requires AllGood(h, chain)
    ensures out == Spelled(h, chain)
  {
    out := [];
    for j := 0 to |chain|
      invariant out == Spelled(h, chain[..j])
    {
      var c := chain[j];
      assert chain[..j + 1] == chain[..j] + [c];
      SpelledCat(h, chain[..j], [c]);
      SpelledOne(h, c);
      out := out + ([c.op, c.indirect] + c.record);
    }
    assert chain[..|chain|] == chain;
  }

  // The changes of a table in the order of its buckets.
  method EmitChanges(h: Header, buckets: seq<seq<GroupChange>>) returns (out: bytes)
    requires AllGood(h, Flatten(buckets))
    ensures out == Spelled(h, Flatten(buckets))
  {
    out := [];
    for i := 0 to |buckets|
      invariant out == Spelled(h, Flatten(buckets[..i]))
    {
      ChainGood(h, buckets, i);
      var chain := EmitChain(h, buckets[i]);
      FlattenSnoc(buckets, i);
      SpelledCat(h, Flatten(buckets[..i]), buckets[i]);
      out := out + chain;
    }
    assert buckets[..|buckets|] == buckets;
  }

  lemma {:induction false} ChainGood(h: Header, bs: seq<seq<GroupChange>>, i: nat)
    requires AllGood(h, Flatten(bs)) && i < |bs|
    ensures AllGood(h, bs[i])
  {
    forall j | 0 <= j < |bs[i]|
      ensures GoodChange(h, bs[i][j])
    {
      InFlatten(bs, i, j);
    }
  }

  lemma {:induction false} FlattenSnoc<T>(bs: seq<seq<T>>, i: nat)
    requires i < |bs|
    ensures Flatten(bs[..i + 1]) == Flatten(bs[..i]) + bs[i]
  {
    assert bs[..i + 1] == bs[..i] + [bs[i]];
    FlattenCat(bs[..i], [bs[i]]);
    assert Flatten([bs[i]]) == bs[i] + Flatten([bs[i]][1..]) == bs[i];
  }

  lemma {:induction false} InFlatten(bs: seq<seq<GroupChange>>, i: nat, j: nat)
    requires i < |bs| && j < |bs[i]|
    ensures bs[i][j] in Flatten(bs)
  {
    InBucket(bs, bs[i][j]);
    FlattenIsSpread(bs);
    assert bs[i][j] in multiset(Flatten(bs));
  }

  lemma {:induction false} TableBytes(st: TableState)
    requires TableOk(st.hdr, st.buckets, st.nentry)
    ensures st.nentry == 0 <==> Flatten(st.buckets) == []
    ensures Unparse(TableItems(st.hdr, Flatten(st.buckets)))
            == if st.nentry == 0 then [] else st.hdr.raw + Spelled(st.hdr, Flatten(st.buckets))
  {
    FlattenIsSpread(st.buckets);
    assert |multiset(Flatten(st.buckets))| == |Flatten(st.buckets)|;
    UnparseCons(Head(st.hdr), ItemsOf(st.hdr, Flatten(st.buckets)));
  }

  lemma {:induction false} GroupCat(a: seq<TableState>, b: seq<TableState>)
    ensures GroupItems(a + b) == GroupItems(a) + GroupItems(b)
    decreases a
  {
    if a == [] {
      assert a + b == b;
    } else {
      GroupCat(a[1..], b);
      ConsCat(a, b);
      GroupCons(a[0], a[1..] + b);
      Assoc(TableItems(a[0].hdr, Flatten(a[0].buckets)), GroupItems(a[1..]), GroupItems(b));
    }
  }

  lemma {:induction false} GroupCons(st: TableState, rest: seq<TableState>)
    ensures GroupItems([st] + rest) == TableItems(st.hdr, Flatten(st.buckets)) + GroupItems(rest)
  {
    assert ([st] + rest)[1..] == rest;
  }

  lemma {:induction false} GroupSnoc(sts: seq<TableState>, i: nat)
    requires i < |sts|
    ensures Unparse(GroupItems(sts[..i + 1]))
            == Unparse(GroupItems(sts[..i])) + Unparse(TableItems(sts[i].hdr, Flatten(sts[i].buckets)))
  {
    var last := TableItems(sts[i].hdr, Flatten(sts[i].buckets));
    assert sts[..i + 1] == sts[..i] + [sts[i]];
    GroupCat(sts[..i], [sts[i]]);
    assert [sts[i]] == [sts[i]] + [];
    GroupCons(sts[i], []);
    assert last + [] == last;
    UnparseCat(GroupItems(sts[..i]), last);
  }

  /** Write out the tables that have changes left. */
  method Emit(tables: seq<ConcatTable>, ghost sts: seq<TableState>) returns (out: bytes)
    requires Shows(tables, sts) && StatesOk(sts)
    ensures out == Unparse(GroupItems(sts))
  {
    out := [];
    for i := 0 to |tables|
      invariant out == Unparse(GroupItems(sts[..i]))
    {
      assert TableOk(sts[i].hdr, sts[i].buckets, sts[i].nentry);
      TableBytes(sts[i]);
      GroupSnoc(sts, i);
      if tables[i].nentry != 0 {
        FlattenGood(sts[i]);
        var changes := EmitChanges(tables[i].hdr, tables[i].buckets);
        out := out + (tables[i].hdr.raw + changes);
      }
    }
    assert sts[..|tables|] == sts;
  }

  // ----- Concatenation

  /** Both changesets can be read, and they agree on the shape of the tables they share. */
  predicate Joinable(a: bytes, b: bytes) {
    match Plan(a, NO_TABLE, [], false)
    case Corrupt => false
    case Ok(hs) => Plan(b, NO_TABLE, hs, false).Ok?
  }

  lemma {:induction false} NoTables(db: Db)
    ensures Standing([], db, Clean(db)) && Headers([]) == []
  {
  }

  // Every database as it is.
  ghost function Untouched(): Course {
    (db: Db) => Clean(db)
  }

  lemma {:induction false} NamesOfViews(sts: seq<TableState>)
    requires DistinctNames(Views(sts)) && AllHeaders(Views(sts))
    ensures NamesDiffer(sts) && HeadersOk(sts)
  {
    forall i, j | 0 <= i < j < |sts|
      ensures sts[i].hdr.name != sts[j].hdr.name
    {
      assert Views(sts)[i].hdr == sts[i].hdr && Views(sts)[j].hdr == sts[j].hdr;
    }
    forall i | 0 <= i < |sts|
      ensures IsHeader(sts[i].hdr)
    {
      assert IsHeader(Views(sts)[i].hdr);
    }
  }

  // The bytes written are a changeset with one change per row that leads to where the group stands.
  ghost predicate WrittenWell(out: bytes, db: Db, end: Applied) {
    && Items(out, 0).Ok? && AllCanonical(ChangesOf(out)) && Distinct(ChangesOf(out))
    && (end.Clean? ==> Apply(db, ChangesOf(out)) == end)
  }

  lemma {:induction false} Written(sts: seq<TableState>, db: Db, end: Applied)
    requires StatesOk(sts) && Standing(Views(sts), db, end)
    ensures WrittenWell(Unparse(GroupItems(sts)), db, end)
  {
    var items := GroupItems(sts);
    NamesOfViews(sts);
    GroupReadsBack(sts);
    assert AreItems(items, 0) && Locate(items, NO_TABLE) == GroupMeanings(sts);
    UnparseThenParse(items, 0);
    GroupDistinct(sts);
    if end.Clean? {
      GroupLeads(sts, db, end.db);
    }
  }

  /** Where `a` and then `b` lead from a database. */
  ghost function Both(a: bytes, b: bytes, db: Db): Applied {
    ApplyFrom(Apply(db, Readable(a, NO_TABLE)), Readable(b, NO_TABLE))
  }

  /** On every database, `out` does what `a` and then `b` do. */
  ghost predicate DoesBoth(out: bytes, a: bytes, b: bytes) {
    forall db :: WrittenWell(out, db, Both(a, b, db))
  }

  lemma {:induction false} NothingStands()
    ensures StatesOk([]) && StandingAll(Views([]), Untouched()) && Headers(Views([])) == []
  {
    assert Views([]) == [];
    forall db
      ensures Standing([], db, Untouched()(db))
    {
      NoTables(db);
    }
  }

  // The course of both changesets.
  ghost function BothCourse(a: bytes, b: bytes): Course {
    ThenAll(ThenAll(Untouched(), Readable(a, NO_TABLE)), Readable(b, NO_TABLE))
  }

  lemma {:induction false} ThenAt(at: Course, cs: seq<Located>, db: Db)
    requires AllWellFormed(cs)
    ensures ThenAll(at, cs)(db) == ApplyFrom(at(db), cs)
  {
  }

  lemma {:induction false} BothAt(a: bytes, b: bytes, db: Db)
    ensures BothCourse(a, b)(db) == Both(a, b, db)
  {
    var one := ThenAll(Untouched(), Readable(a, NO_TABLE));
    assert Untouched()(db) == Clean(db);
    ThenAt(Untouched(), Readable(a, NO_TABLE), db);
    ThenAt(one, Readable(b, NO_TABLE), db);
  }

  lemma {:induction false} WrittenForAll(sts: seq<TableState>, a: bytes, b: bytes)
    requires StatesOk(sts) && StandingAll(Views(sts), BothCourse(a, b))
    ensures DoesBoth(Unparse(GroupItems(sts)), a, b)
  {
    forall db
      ensures WrittenWell(Unparse(GroupItems(sts)), db, Both(a, b, db))
    {
      assert Standing(Views(sts), db, BothCourse(a, b)(db));
      BothAt(a, b, db);
      Written(sts, db, Both(a, b, db));
    }
  }

  /** Concatenation succeeds exactly on joinable changesets. The result has at most one change per row,
      and on every database on which `a` and then `b` apply cleanly it applies cleanly and leads to the
      same end. */
  method ConcatChangesets(a: bytes, b: bytes) returns (r: Result<bytes>)
    requires AllCanonical(Readable(a, NO_TABLE)) && AllCanonical(Readable(b, NO_TABLE))
    ensures r.Ok? <==> Joinable(a, b)
    ensures r.Ok? ==> DoesBoth(r.value, a, b)
  {
    NothingStands();
    var none: seq<ConcatTable> := [];
    var first, sts := ConcatAbsorb(a, none, [], Untouched());
    if first.Corrupt? {
      return Corrupt;
    }
    var second, sts' := ConcatAbsorb(b, first.value, sts, ThenAll(Untouched(), Readable(a, NO_TABLE)));
    if second.Corrupt? {
      return Corrupt;
    }
    var out := Emit(second.value, sts');
    WrittenForAll(sts', a, b);
    return Ok(out);
  }

  /** On joinable changesets, what is readable is all of it. */
  lemma {:induction false} JoinableReadable(a: bytes, b: bytes)
    requires Joinable(a, b)
    ensures Items(a, 0).Ok? && Items(b, 0).Ok?
    ensures Readable(a, NO_TABLE) == ChangesOf(a) && Readable(b, NO_TABLE) == ChangesOf(b)
  {
    ReadableIsAll(a, NO_TABLE);
    ReadableIsAll(b, NO_TABLE);
  }
}
