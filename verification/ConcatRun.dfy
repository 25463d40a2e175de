/** Absorbing changesets into a change group and writing the group out: the result does what the first
    changeset and then the second does, with at most one change per row. */
module ConcatRun {
  import opened Bytes
  import opened Changeset
  import opened Applying
  import opened Buckets
  import opened Concat
  import opened Group

  // ----- Which inputs are accepted

  function NameAt(hs: seq<Header>, name: bytes): (r: Option<nat>)
    ensures r.Some? ==> r.value < |hs| && hs[r.value].name == name
    ensures r.None? ==> forall i :: 0 <= i < |hs| ==> hs[i].name != name
  {
    if hs == [] then None
    else if hs[0].name == name then Some(0)
    else
      match NameAt(hs[1..], name)
      case None => None
      case Some(i) => Some(i + 1)
  }

  predicate SameShape(a: Header, b: Header) {
    a.ncol == b.ncol && a.pk == b.pk
  }

  /** The tables of the group after these items, or an error: a change must stand under a header, and
      a table must keep its shape. */
  function Known(items: seq<Item>, hs: seq<Header>, open: bool): Result<seq<Header>>
    decreases items
  {
    if items == [] then Ok(hs)
    else
      match items[0]
      case Change(_, _, _) => if open then Known(items[1..], hs, open) else Corrupt
      case Head(hdr) =>
        match NameAt(hs, hdr.name)
        case None => Known(items[1..], hs + [hdr], true)
        case Some(i) => if SameShape(hs[i], hdr) then Known(items[1..], hs, true) else Corrupt
  }

  function Plan(s: bytes, h: Header, hs: seq<Header>, open: bool): Result<seq<Header>> {
    match Items(s, h.ncol)
    case Corrupt => Corrupt
    case Ok(items) => Known(items, hs, open)
  }

  ghost function ApplyFrom(at: Applied, cs: seq<Located>): Applied
    requires AllWellFormed(cs)
  {
    if at.Clean? then Apply(at.db, cs) else Conflict
  }

  /** The changes in the bytes `s`, read under header `h`, up to the first error if there is one. */
  function Readable(s: bytes, h: Header): (cs: seq<Located>)
    requires |h.pk| == h.ncol
    ensures AllWellFormed(cs)
    decreases |s|
  {
    if s == [] then []
    else
      match ReadItem(s, h.ncol)
      case Corrupt => []
      case Ok(it) =>
        ItemRead(s, h.ncol);
        match it
        case Head(hdr) => Readable(s[|hdr.raw|..], hdr)
        case Change(op, indirect, fields) =>
          [Located(h.name, h.pk, op, indirect, fields)] + Readable(s[|Raw(it)|..], h)
  }

  lemma {:induction false} ReadableIsAll(s: bytes, h: Header)
    requires |h.pk| == h.ncol && Items(s, h.ncol).Ok?
    ensures Readable(s, h) == Locate(Items(s, h.ncol).value, h)
    decreases |s|
  {
    if s != [] {
      ItemRead(s, h.ncol);
      var it := ReadItem(s, h.ncol).value;
      var rest := Items(s[|Raw(it)|..], NextCols(it, h.ncol)).value;
      assert ([it] + rest)[1..] == rest;
      ReadableIsAll(s[|Raw(it)|..], if it.Head? then it.hdr else h);
    }
  }

  lemma {:induction false} HeadStep(s: bytes, h: Header, hs: seq<Header>, open: bool)
    requires s != [] && |h.pk| == h.ncol && ReadItem(s, h.ncol).Ok? && ReadItem(s, h.ncol).value.Head?
    ensures var hdr := ReadItem(s, h.ncol).value.hdr;
            && IsHeader(hdr) && |hdr.pk| == hdr.ncol && 0 < |hdr.raw| <= |s|
            && var t := s[|hdr.raw|..];
            && Readable(s, h) == Readable(t, hdr)
            && Plan(s, h, hs, open)
               == match NameAt(hs, hdr.name) {
                    case None => Plan(t, hdr, hs + [hdr], true)
                    case Some(i) => if SameShape(hs[i], hdr) then Plan(t, hdr, hs, true) else Corrupt
                  }
  {
    ItemRead(s, h.ncol);
    var it := ReadItem(s, h.ncol).value;
    var rest := Items(s[|Raw(it)|..], it.hdr.ncol);
    if rest.Ok? {
      assert ([it] + rest.value)[1..] == rest.value;
    }
  }

  lemma {:induction false} ChangeStep(s: bytes, h: Header, hs: seq<Header>, open: bool)
    requires s != [] && |h.pk| == h.ncol && ReadItem(s, h.ncol).Ok? && ReadItem(s, h.ncol).value.Change?
    ensures var it := ReadItem(s, h.ncol).value;
            && IsItem(it, h.ncol) && 0 < |Raw(it)| <= |s|
            && var t := s[|Raw(it)|..];
            && Readable(s, h) == [Located(h.name, h.pk, it.op, it.indirect, it.fields)] + Readable(t, h)
            && Plan(s, h, hs, open) == if open then Plan(t, h, hs, open) else Corrupt
  {
    ItemRead(s, h.ncol);
    var it := ReadItem(s, h.ncol).value;
    var rest := Items(s[|Raw(it)|..], h.ncol);
    if rest.Ok? {
      assert ([it] + rest.value)[1..] == rest.value;
    }
  }

  // ----- The absorbing loop

  function Headers(vs: seq<View>): (r: seq<Header>)
    ensures |r| == |vs|
  {
    seq(|vs|, i requires 0 <= i < |vs| => vs[i].hdr)
  }

  ghost predicate AllHeaders(vs: seq<View>) {
    forall i {:trigger IsHeader(vs[i].hdr)} :: 0 <= i < |vs| ==> IsHeader(vs[i].hdr)
  }

  // The group `vs` is well formed and leads from `db` to where the changes so far lead.
  ghost predicate Standing(vs: seq<View>, db: Db, at: Applied) {
    GroupOk(vs) && AllHeaders(vs) && (at.Clean? ==> Tracks(vs, db, at.db))
  }

  // The current header is that of the open table.
  ghost predicate Under(h: Header, cur: Option<nat>, vs: seq<View>) {
    && |h.pk| == h.ncol
    && (cur.Some? ==> cur.value < |vs| && vs[cur.value].hdr.name == h.name && SameShape(vs[cur.value].hdr, h))
  }

  lemma {:induction false} NotNamed(vs: seq<View>, name: bytes)
    requires NameAt(Headers(vs), name).None?
    ensures forall i :: 0 <= i < |vs| ==> vs[i].hdr.name != name
    ensures !HasTable(vs, name)
  {
    forall i | 0 <= i < |vs|
      ensures vs[i].hdr.name != name
    {
      assert Headers(vs)[i] == vs[i].hdr;
    }
  }

  lemma {:induction false} NewTableTracks(vs: seq<View>, hdr: Header, db: Db, d: Db)
    requires Tracks(vs, db, d) && !HasTable(vs, hdr.name)
    ensures Tracks(vs + [View(hdr, multiset{})], db, d)
  {
    var v := View(hdr, multiset{});
    var after := vs + [v];
    forall key | !HasRow(v, key)
      ensures Get(d, RowId(hdr.name, key)) == Get(db, RowId(hdr.name, key))
    {
      assert !HasTable(vs, RowId(hdr.name, key).table);
    }
    assert TableTracks(v, db, d);
    forall i | 0 <= i < |after|
      ensures TableTracks(after[i], db, d)
    {
      assert after[i] == if i < |vs| then vs[i] else v;
    }
    forall id: RowId | !HasTable(after, id.table)
      ensures Get(d, id) == Get(db, id)
    {
      TableKept(vs, v, id.table);
    }
  }

  lemma {:induction false} NewTable(vs: seq<View>, hdr: Header, db: Db, at: Applied)
    requires Standing(vs, db, at) && IsHeader(hdr) && |hdr.pk| == hdr.ncol && NameAt(Headers(vs), hdr.name).None?
    ensures Standing(vs + [View(hdr, multiset{})], db, at)
    ensures Headers(vs + [View(hdr, multiset{})]) == Headers(vs) + [hdr]
    ensures Under(hdr, Some(|vs|), vs + [View(hdr, multiset{})])
  {
    NotNamed(vs, hdr.name);
    NewTableOk(vs, View(hdr, multiset{}));
    if at.Clean? {
      NewTableTracks(vs, hdr, db, at.db);
    }
  }

  lemma {:induction false} NewTableOk(vs: seq<View>, v: View)
    requires GroupOk(vs) && ViewOk(v) && forall i :: 0 <= i < |vs| ==> vs[i].hdr.name != v.hdr.name
    ensures GroupOk(vs + [v])
  {
    var after := vs + [v];
    assert forall i :: 0 <= i < |after| ==> after[i] == if i < |vs| then vs[i] else v;
  }

  lemma {:induction false} TableKept(vs: seq<View>, v: View, name: bytes)
    ensures HasTable(vs, name) ==> HasTable(vs + [v], name)
  {
    if i :| 0 <= i < |vs| && vs[i].hdr.name == name {
      assert (vs + [v])[i].hdr.name == name;
    }
  }

  // The change just read, as the group keeps it.
  lemma {:induction false} ReadChange(h: Header, k: Header, it: Item)
    requires |h.pk| == h.ncol && k.name == h.name && SameShape(k, h) && it.Change? && IsItem(it, h.ncol)
    ensures var c := GroupChange(it.op, it.indirect, Join(it.fields));
            ChangeOk(k, c) && Meaning(k, c) == Located(h.name, h.pk, it.op, it.indirect, it.fields)
  {
    Packed(k, it.op, it.indirect, it.fields);
  }

  ghost function ApplyOne(at: Applied, c: Located): Applied
    requires c.WellFormed()
  {
    if at.Conflict? then Conflict
    else
      match Effect(c, Get(at.db, c.Id()))
      case Refused => Conflict
      case Done(x) => Clean(Put(at.db, c.Id(), x))
  }

  lemma {:induction false} ApplyFromStep(at: Applied, c: Located, rest: seq<Located>)
    requires c.WellFormed() && AllWellFormed(rest)
    ensures AllWellFormed([c] + rest) && ApplyFrom(at, [c] + rest) == ApplyFrom(ApplyOne(at, c), rest)
  {
    assert ([c] + rest)[1..] == rest;
  }

  lemma {:induction false} GroupUpdateOk(vs: seq<View>, t: nat, after: View)
    requires GroupOk(vs) && AllHeaders(vs) && t < |vs| && after.hdr == vs[t].hdr && ViewOk(after)
    ensures GroupOk(vs[t := after]) && AllHeaders(vs[t := after]) && Headers(vs[t := after]) == Headers(vs)
  {
    var vs' := vs[t := after];
    assert forall i :: 0 <= i < |vs| ==> vs'[i].hdr == vs[i].hdr;
    forall i | 0 <= i < |vs|
      ensures ViewOk(vs'[i])
    {
      assert vs'[i] == if i == t then after else vs[i];
    }
  }

  lemma {:induction false} AddedToGroup(vs: seq<View>, t: nat, c: GroupChange, after: View, db: Db, at: Applied)
    requires Standing(vs, db, at) && t < |vs| && GoodChange(vs[t].hdr, c)
    requires after.hdr == vs[t].hdr && ViewOk(after) && AddsTo(vs[t].hdr, vs[t].contents, c, after.contents)
    ensures Meaning(vs[t].hdr, c).WellFormed()
    ensures Standing(vs[t := after], db, ApplyOne(at, Meaning(vs[t].hdr, c)))
    ensures Headers(vs[t := after]) == Headers(vs)
  {
    var h := vs[t].hdr;
    MeaningId(h, c);
    GroupUpdateOk(vs, t, after);
    var l := Meaning(h, c);
    if at.Clean? && Effect(l, Get(at.db, l.Id())).Done? {
      GroupTracks(vs, t, c, after, db, at.db, Effect(l, Get(at.db, l.Id())).row);
    }
  }

  // With `s` still to read, the group, the plan and the end are as they will be.
  ghost predicate Absorbing(s: bytes, h: Header, cur: Option<nat>, vs: seq<View>, db: Db, at: Applied,
                            plan: Result<seq<Header>>, end: Applied) {
    && Under(h, cur, vs) && Standing(vs, db, at) && Plan(s, h, Headers(vs), cur.Some?) == plan
    && AllCanonical(Readable(s, h)) && ApplyFrom(at, Readable(s, h)) == end
  }

  lemma {:induction false} AbsorbHeader(s: bytes, h: Header, cur: Option<nat>, vs: seq<View>, db: Db, at: Applied,
                                        plan: Result<seq<Header>>, end: Applied)
    requires Absorbing(s, h, cur, vs, db, at, plan, end) && s != []
    requires ReadItem(s, h.ncol).Ok? && ReadItem(s, h.ncol).value.Head?
    ensures var hdr := ReadItem(s, h.ncol).value.hdr;
            && IsHeader(hdr) && |hdr.pk| == hdr.ncol && 0 < |hdr.raw| <= |s|
            && match NameAt(Headers(vs), hdr.name) {
                 case None =>
                   Absorbing(s[|hdr.raw|..], hdr, Some(|vs|), vs + [View(hdr, multiset{})], db, at, plan, end)
                 case Some(i) =>
                   if SameShape(vs[i].hdr, hdr) then Absorbing(s[|hdr.raw|..], hdr, Some(i), vs, db, at, plan, end)
                   else plan == Corrupt
               }
  {
    HeadStep(s, h, Headers(vs), cur.Some?);
    var hdr := ReadItem(s, h.ncol).value.hdr;
    if NameAt(Headers(vs), hdr.name).None? {
      NewTable(vs, hdr, db, at);
    }
  }

  lemma {:induction false} AbsorbChange(s: bytes, h: Header, cur: Option<nat>, vs: seq<View>, db: Db, at: Applied,
                                        plan: Result<seq<Header>>, end: Applied)
    requires Absorbing(s, h, cur, vs, db, at, plan, end) && s != []
    requires ReadItem(s, h.ncol).Ok? && ReadItem(s, h.ncol).value.Change?
    ensures cur.None? ==> plan == Corrupt
    ensures cur.Some? ==>
              var it := ReadItem(s, h.ncol).value;
              var c, k := GroupChange(it.op, it.indirect, Join(it.fields)), vs[cur.value].hdr;
              && 0 < |Raw(it)| <= |s| && GoodChange(k, c)
              && forall after: View ::
                   after.hdr == k && ViewOk(after) && AddsTo(k, vs[cur.value].contents, c, after.contents) ==>
                     Absorbing(s[|Raw(it)|..], h, cur, vs[cur.value := after], db,
                               ApplyOne(at, Located(h.name, h.pk, it.op, it.indirect, it.fields)), plan, end)
  {
    ChangeStep(s, h, Headers(vs), cur.Some?);
    if cur.Some? {
      var it, t := ReadItem(s, h.ncol).value, cur.value;
      var k, l := vs[t].hdr, Located(h.name, h.pk, it.op, it.indirect, it.fields);
      var c, rest := GroupChange(it.op, it.indirect, Join(it.fields)), Readable(s[|Raw(it)|..], h);
      ReadChange(h, k, it);
      assert Readable(s, h) == [l] + rest;
      assert Canonical(([l] + rest)[0]);
      assert AllCanonical(rest) by {
        assert forall i :: 0 <= i < |rest| ==> rest[i] == ([l] + rest)[i + 1];
      }
      ApplyFromStep(at, l, rest);
      forall after: View | after.hdr == k && ViewOk(after) && AddsTo(k, vs[t].contents, c, after.contents)
        ensures Absorbing(s[|Raw(it)|..], h, cur, vs[t := after], db, ApplyOne(at, l), plan, end)
      {
        AddedToGroup(vs, t, c, after, db, at);
      }
    }
  }

  // The contents of a table's fields.
  datatype TableState = TableState(hdr: Header, buckets: seq<seq<GroupChange>>, nentry: nat)

  ghost function ViewOf(st: TableState): View {
    View(st.hdr, Spread(st.buckets))
  }

  ghost function Views(sts: seq<TableState>): (r: seq<View>)
    ensures |r| == |sts|
  {
    seq(|sts|, i requires 0 <= i < |sts| => ViewOf(sts[i]))
  }

  ghost predicate StatesOk(sts: seq<TableState>) {
    forall i {:trigger TableOk(sts[i].hdr, sts[i].buckets, sts[i].nentry)} ::
      0 <= i < |sts| ==> TableOk(sts[i].hdr, sts[i].buckets, sts[i].nentry)
  }

  /** The tables in memory, all different objects, hold `sts`. */
  ghost predicate Shows(tables: seq<ConcatTable>, sts: seq<TableState>)
    reads tables
  {
    && |tables| == |sts|
    && (forall i, j :: 0 <= i < j < |tables| ==> tables[i] != tables[j])
    && (forall i :: 0 <= i < |tables| ==>
          tables[i].hdr == sts[i].hdr && tables[i].buckets == sts[i].buckets && tables[i].nentry == sts[i].nentry)
  }

  // The place of the table with this name.
  method Position(tables: seq<ConcatTable>, name: bytes, ghost sts: seq<TableState>) returns (r: Option<nat>)
    requires Shows(tables, sts) && DistinctNames(Views(sts))
    ensures r == NameAt(Headers(Views(sts)), name)
  {
    ghost var vs := Views(sts);
    ghost var hs := Headers(vs);
    for i := 0 to |tables|
      invariant forall j :: 0 <= j < i ==> hs[j].name != name
    {
      assert vs[i].hdr == sts[i].hdr && hs[i] == vs[i].hdr;
      if tables[i].hdr.name == name {
        FirstNamed(vs, name, i);
        return Some(i);
      }
    }
    return None;
  }

  lemma {:induction false} FirstNamed(vs: seq<View>, name: bytes, i: nat)
    requires DistinctNames(vs) && i < |vs| && vs[i].hdr.name == name
    ensures NameAt(Headers(vs), name) == Some(i)
  {
    var hs := Headers(vs);
    assert hs[i] == vs[i].hdr;
    var r := NameAt(hs, name);
    assert r.Some? && hs[r.value] == vs[r.value].hdr;
  }

  // One table's fields before and after a change is added.
  ghost predicate Grew(st: TableState, c: GroupChange, after: TableState) {
    && after.hdr == st.hdr && TableOk(after.hdr, after.buckets, after.nentry)
    && AddsTo(st.hdr, Spread(st.buckets), c, Spread(after.buckets))
  }

  method AddOne(table: ConcatTable, c: GroupChange, ghost st: TableState) returns (ghost after: TableState)
    requires table.hdr == st.hdr && table.buckets == st.buckets && table.nentry == st.nentry
    requires TableOk(st.hdr, st.buckets, st.nentry) && GoodChange(st.hdr, c)
    modifies table
    ensures table.hdr == after.hdr && table.buckets == after.buckets && table.nentry == after.nentry
    ensures Grew(st, c, after)
  {
    table.Add(c);
    after := TableState(table.hdr, table.buckets, table.nentry);
  }

  method AddTo(tables: seq<ConcatTable>, t: nat, c: GroupChange, ghost sts: seq<TableState>)
    returns (ghost after: TableState)
    requires Shows(tables, sts) && StatesOk(sts) && t < |tables| && GoodChange(sts[t].hdr, c)
    modifies tables[t]
    ensures Grew(sts[t], c, after) && Shows(tables, sts[t := after])
  {
    after := AddOne(tables[t], c, sts[t]);
  }

  lemma {:induction false} GrewView(st: TableState, c: GroupChange, after: TableState)
    requires Grew(st, c, after)
    ensures ViewOk(ViewOf(after)) && ViewOf(after).hdr == st.hdr
    ensures AddsTo(st.hdr, ViewOf(st).contents, c, ViewOf(after).contents)
  {
  }

  lemma {:induction false} ViewsUpdate(sts: seq<TableState>, t: nat, st: TableState)
    requires t < |sts|
    ensures Views(sts[t := st]) == Views(sts)[t := ViewOf(st)]
  {
  }

  lemma {:induction false} ViewsMore(sts: seq<TableState>, hdr: Header)
    ensures Views(sts + [TableState(hdr, [], 0)]) == Views(sts) + [View(hdr, multiset{})]
  {
  }

  // Everything the loop keeps that is not about memory.
  ghost predicate Running(s: bytes, h: Header, cur: Option<nat>, sts: seq<TableState>, db: Db, at: Applied,
                          plan: Result<seq<Header>>, end: Applied) {
    StatesOk(sts) && Absorbing(s, h, cur, Views(sts), db, at, plan, end)
  }

  lemma {:induction false} StatesMore(sts: seq<TableState>, hdr: Header)
    requires StatesOk(sts) && |hdr.pk| == hdr.ncol
    ensures StatesOk(sts + [TableState(hdr, [], 0)])
  {
    var more := sts + [TableState(hdr, [], 0)];
    assert TableOk(hdr, [], 0);
    assert forall i :: 0 <= i < |sts| ==> more[i] == sts[i];
  }

  lemma {:induction false} HeaderOfView(sts: seq<TableState>, i: nat)
    requires i < |sts|
    ensures Headers(Views(sts))[i] == Views(sts)[i].hdr == sts[i].hdr
  {
  }

  // The group after a header has been read.
  ghost predicate Opened(sts: seq<TableState>, hdr: Header, cur: Option<nat>, after: seq<TableState>) {
    match NameAt(Headers(Views(sts)), hdr.name)
    case None => cur == Some(|sts|) && after == sts + [TableState(hdr, [], 0)]
    case Some(i) => if SameShape(sts[i].hdr, hdr) then cur == Some(i) && after == sts else cur == None
  }

  lemma {:induction false} RunHeader(s: bytes, h: Header, cur: Option<nat>, sts: seq<TableState>, db: Db, at: Applied,
                                     plan: Result<seq<Header>>, end: Applied, hdr: Header, cur': Option<nat>,
                                     after: seq<TableState>)
    requires Running(s, h, cur, sts, db, at, plan, end) && s != [] && ReadItem(s, h.ncol) == Ok(Head(hdr))
    requires Opened(sts, hdr, cur', after)
    ensures |hdr.pk| == hdr.ncol && 0 < |hdr.raw| <= |s|
    ensures cur'.None? ==> plan == Corrupt
    ensures cur'.Some? ==> Running(s[|hdr.raw|..], hdr, cur', after, db, at, plan, end)
  {
    var vs := Views(sts);
    AbsorbHeader(s, h, cur, vs, db, at, plan, end);
    var i := NameAt(Headers(vs), hdr.name);
    if i.None? {
      ViewsMore(sts, hdr);
      StatesMore(sts, hdr);
    } else {
      HeaderOfView(sts, i.value);
    }
  }

  // Find or open the table of a header.
  method OpenTable(tables: seq<ConcatTable>, hdr: Header, ghost sts: seq<TableState>)
    returns (cur: Option<nat>, ts: seq<ConcatTable>, ghost after: seq<TableState>)
    requires Shows(tables, sts) && DistinctNames(Views(sts)) && |hdr.pk| == hdr.ncol
    ensures Opened(sts, hdr, cur, after)
    ensures cur.Some? ==> Shows(ts, after) && forall i :: 0 <= i < |ts| ==> ts[i] in tables || fresh(ts[i])
  {
    cur, ts, after := None, tables, sts;
    var i := Position(tables, hdr.name, sts);
    if i.Some? {
      if SameShape(tables[i.value].hdr, hdr) {
        cur := i;
      }
    } else {
      var table := new ConcatTable(hdr);
      cur, ts, after := Some(|tables|), tables + [table], sts + [TableState(hdr, [], 0)];
    }
  }

  lemma {:induction false} RunChange(s: bytes, h: Header, cur: Option<nat>, sts: seq<TableState>, db: Db, at: Applied,
                                     plan: Result<seq<Header>>, end: Applied, it: Item)
    requires Running(s, h, cur, sts, db, at, plan, end) && s != [] && it.Change? && ReadItem(s, h.ncol) == Ok(it)
    ensures cur.None? ==> plan == Corrupt
    ensures cur.Some? ==>
              var c, t := GroupChange(it.op, it.indirect, Join(it.fields)), cur.value;
              && 0 < |Raw(it)| <= |s| && t < |sts| && GoodChange(sts[t].hdr, c)
              && var l := Located(h.name, h.pk, it.op, it.indirect, it.fields);
              && l.WellFormed()
              && forall after: TableState :: Grew(sts[t], c, after) ==>
                   Running(s[|Raw(it)|..], h, cur, sts[t := after], db, ApplyOne(at, l), plan, end)
  {
    AbsorbChange(s, h, cur, Views(sts), db, at, plan, end);
    if cur.Some? {
      var c, t := GroupChange(it.op, it.indirect, Join(it.fields)), cur.value;
      var l := Located(h.name, h.pk, it.op, it.indirect, it.fields);
      ItemRead(s, h.ncol);
      forall after: TableState | Grew(sts[t], c, after)
        ensures Running(s[|Raw(it)|..], h, cur, sts[t := after], db, ApplyOne(at, l), plan, end)
      {
        GrewView(sts[t], c, after);
        ViewsUpdate(sts, t, after);
        assert Views(sts)[t] == ViewOf(sts[t]);
      }
    }
  }

  lemma {:induction false} RunFails(s: bytes, h: Header, cur: Option<nat>, sts: seq<TableState>, db: Db, at: Applied,
                                    plan: Result<seq<Header>>, end: Applied)
    requires Running(s, h, cur, sts, db, at, plan, end) && s != [] && ReadItem(s, h.ncol).Corrupt?
    ensures plan == Corrupt
  {
  }

  lemma {:induction false} RunFacts(s: bytes, h: Header, cur: Option<nat>, sts: seq<TableState>, db: Db, at: Applied,
                                    plan: Result<seq<Header>>, end: Applied)
    requires Running(s, h, cur, sts, db, at, plan, end)
    ensures DistinctNames(Views(sts)) && StatesOk(sts)
    ensures s == [] ==> plan == Ok(Headers(Views(sts))) && Standing(Views(sts), db, end)
    ensures s != [] && ReadItem(s, h.ncol).Ok? && ReadItem(s, h.ncol).value.Head? ==>
              |ReadItem(s, h.ncol).value.hdr.pk| == ReadItem(s, h.ncol).value.hdr.ncol
  {
    if s != [] && ReadItem(s, h.ncol).Ok? {
      ItemRead(s, h.ncol);
    }
  }

  lemma {:induction false} RunStarts(s: bytes, sts: seq<TableState>, db: Db, at: Applied)
    requires StatesOk(sts) && Standing(Views(sts), db, at) && AllCanonical(Readable(s, NO_TABLE))
    ensures Running(s, NO_TABLE, None, sts, db, at,
                    Plan(s, NO_TABLE, Headers(Views(sts)), false), ApplyFrom(at, Readable(s, NO_TABLE)))
  {
  }

  // ----- On every database at once

  /** Where the changes so far lead, from every database. */
  type Course = Db -> Applied

  ghost predicate RunningAll(s: bytes, h: Header, cur: Option<nat>, sts: seq<TableState>, at: Course,
                             plan: Result<seq<Header>>, end: Course) {
    forall db :: Running(s, h, cur, sts, db, at(db), plan, end(db))
  }

  /** The group stands for the changes so far, from every database. */
  ghost predicate StandingAll(vs: seq<View>, at: Course) {
    forall db :: Standing(vs, db, at(db))
  }

  ghost function ThenOne(at: Course, l: Located): Course
    requires l.WellFormed()
  {
    (db: Db) => ApplyOne(at(db), l)
  }

  ghost function ThenAll(at: Course, cs: seq<Located>): Course
    requires AllWellFormed(cs)
  {
    (db: Db) => ApplyFrom(at(db), cs)
  }

  lemma {:induction false} AllHeader(s: bytes, h: Header, cur: Option<nat>, sts: seq<TableState>, at: Course,
                                     plan: Result<seq<Header>>, end: Course, hdr: Header, cur': Option<nat>,
                                     after: seq<TableState>)
    requires RunningAll(s, h, cur, sts, at, plan, end) && s != [] && ReadItem(s, h.ncol) == Ok(Head(hdr))
    requires Opened(sts, hdr, cur', after)
    ensures |hdr.pk| == hdr.ncol && 0 < |hdr.raw| <= |s|
    ensures cur'.None? ==> plan == Corrupt
    ensures cur'.Some? ==> RunningAll(s[|hdr.raw|..], hdr, cur', after, at, plan, end)
  {
    var none: Db := map[];
    RunHeader(s, h, cur, sts, none, at(none), plan, end(none), hdr, cur', after);
    if cur'.Some? {
      forall db
        ensures Running(s[|hdr.raw|..], hdr, cur', after, db, at(db), plan, end(db))
      {
        RunHeader(s, h, cur, sts, db, at(db), plan, end(db), hdr, cur', after);
      }
    }
  }

  // A change that can be added.
  ghost predicate CanAdd(s: bytes, h: Header, cur: Option<nat>, sts: seq<TableState>, it: Item) {
    && it.Change? && cur.Some? && cur.value < |sts| && 0 < |Raw(it)| <= |s|
    && GoodChange(sts[cur.value].hdr, GroupChange(it.op, it.indirect, Join(it.fields)))
    && Located(h.name, h.pk, it.op, it.indirect, it.fields).WellFormed()
  }

  lemma {:induction false} AllMayAdd(s: bytes, h: Header, cur: Option<nat>, sts: seq<TableState>, at: Course,
                                     plan: Result<seq<Header>>, end: Course, it: Item)
    requires RunningAll(s, h, cur, sts, at, plan, end) && s != [] && it.Change? && ReadItem(s, h.ncol) == Ok(it)
    ensures if cur.None? then plan == Corrupt else CanAdd(s, h, cur, sts, it)
  {
    var none: Db := map[];
    RunChange(s, h, cur, sts, none, at(none), plan, end(none), it);
  }

  lemma {:induction false} AllChange(s: bytes, h: Header, cur: Option<nat>, sts: seq<TableState>, at: Course,
                                     plan: Result<seq<Header>>, end: Course, it: Item, after: TableState)
    requires RunningAll(s, h, cur, sts, at, plan, end) && s != [] && it.Change? && ReadItem(s, h.ncol) == Ok(it)
    requires CanAdd(s, h, cur, sts, it)
    requires Grew(sts[cur.value], GroupChange(it.op, it.indirect, Join(it.fields)), after)
    ensures RunningAll(s[|Raw(it)|..], h, cur, sts[cur.value := after],
                       ThenOne(at, Located(h.name, h.pk, it.op, it.indirect, it.fields)), plan, end)
  {
    var l := Located(h.name, h.pk, it.op, it.indirect, it.fields);
    forall db
      ensures Running(s[|Raw(it)|..], h, cur, sts[cur.value := after], db, ThenOne(at, l)(db), plan, end(db))
    {
      RunChange(s, h, cur, sts, db, at(db), plan, end(db), it);
    }
  }

  lemma {:induction false} AllFacts(s: bytes, h: Header, cur: Option<nat>, sts: seq<TableState>, at: Course,
                                    plan: Result<seq<Header>>, end: Course)
    requires RunningAll(s, h, cur, sts, at, plan, end)
    ensures DistinctNames(Views(sts)) && StatesOk(sts)
    ensures s == [] ==> plan == Ok(Headers(Views(sts))) && StandingAll(Views(sts), end)
    ensures s != [] && ReadItem(s, h.ncol).Corrupt? ==> plan == Corrupt
    ensures s != [] && ReadItem(s, h.ncol).Ok? && ReadItem(s, h.ncol).value.Head? ==>
              |ReadItem(s, h.ncol).value.hdr.pk| == ReadItem(s, h.ncol).value.hdr.ncol
  {
    var none: Db := map[];
    RunFacts(s, h, cur, sts, none, at(none), plan, end(none));
    if s == [] {
      forall db
        ensures Standing(Views(sts), db, end(db))
      {
        RunFacts(s, h, cur, sts, db, at(db), plan, end(db));
      }
    } else if ReadItem(s, h.ncol).Corrupt? {
      RunFails(s, h, cur, sts, none, at(none), plan, end(none));
    }
  }

  lemma {:induction false} AllStarts(s: bytes, sts: seq<TableState>, at: Course)
    requires StatesOk(sts) && StandingAll(Views(sts), at) && AllCanonical(Readable(s, NO_TABLE))
    ensures RunningAll(s, NO_TABLE, None, sts, at, Plan(s, NO_TABLE, Headers(Views(sts)), false),
                       ThenAll(at, Readable(s, NO_TABLE)))
  {
    forall db
      ensures Running(s, NO_TABLE, None, sts, db, at(db), Plan(s, NO_TABLE, Headers(Views(sts)), false),
                      ThenAll(at, Readable(s, NO_TABLE))(db))
    {
      assert Standing(Views(sts), db, at(db));
      RunStarts(s, sts, db, at(db));
    }
  }

  // ----- The loop

  // Where the loop stands after one item.
  datatype Step = Step(length: nat, hdr: Header, cur: Option<nat>, tables: seq<ConcatTable>) | Failed

  method AbsorbHead(s: bytes, h: Header, cur: Option<nat>, tables: seq<ConcatTable>, hdr: Header,
                    ghost sts: seq<TableState>, ghost at: Course, ghost plan: Result<seq<Header>>, ghost end: Course)
    returns (r: Step, ghost after: seq<TableState>)
    requires RunningAll(s, h, cur, sts, at, plan, end) && s != [] && ReadItem(s, h.ncol) == Ok(Head(hdr))
    requires Shows(tables, sts) && DistinctNames(Views(sts)) && |hdr.pk| == hdr.ncol
    ensures r.Failed? ==> plan == Corrupt
    ensures r.Step? ==>
              && Shows(r.tables, after)
              && (forall i :: 0 <= i < |r.tables| ==> r.tables[i] in tables || fresh(r.tables[i]))
              && 0 < r.length <= |s| && RunningAll(s[r.length..], r.hdr, r.cur, after, at, plan, end)
  {
    var next, ts;
    next, ts, after := OpenTable(tables, hdr, sts);
    AllHeader(s, h, cur, sts, at, plan, end, hdr, next, after);
    r := if next.None? then Failed else Step(|hdr.raw|, hdr, next, ts);
  }

  method AbsorbRecord(s: bytes, h: Header, cur: Option<nat>, tables: seq<ConcatTable>, it: Item,
                      ghost sts: seq<TableState>, ghost at: Course, ghost plan: Result<seq<Header>>,
                      ghost end: Course)
    returns (r: Step, ghost after: seq<TableState>, ghost here: Course)
    requires RunningAll(s, h, cur, sts, at, plan, end) && s != [] && it.Change? && ReadItem(s, h.ncol) == Ok(it)
    requires Shows(tables, sts) && StatesOk(sts)
    modifies tables
    ensures r.Failed? ==> plan == Corrupt
    ensures r.Step? ==>
              && Shows(r.tables, after) && r.tables == tables
              && 0 < r.length <= |s| && RunningAll(s[r.length..], r.hdr, r.cur, after, here, plan, end)
  {
    AllMayAdd(s, h, cur, sts, at, plan, end, it);
    after, here := sts, at;
    if cur.None? {
      return Failed, after, here;
    }
    ghost var st := AddTo(tables, cur.value, GroupChange(it.op, it.indirect, Join(it.fields)), sts);
    AllChange(s, h, cur, sts, at, plan, end, it, st);
    after := sts[cur.value := st];
    here := ThenOne(at, Located(h.name, h.pk, it.op, it.indirect, it.fields));
    r := Step(|Raw(it)|, h, cur, tables);
  }

  method AbsorbItem(s: bytes, h: Header, cur: Option<nat>, tables: seq<ConcatTable>, ghost sts: seq<TableState>,
                    ghost at: Course, ghost plan: Result<seq<Header>>, ghost end: Course)
    returns (r: Step, ghost after: seq<TableState>, ghost here: Course)
    requires RunningAll(s, h, cur, sts, at, plan, end) && s != [] && Shows(tables, sts)
    modifies tables
    ensures r.Failed? ==> plan == Corrupt
    ensures r.Step? ==>
              && Shows(r.tables, after)
              && (forall i :: 0 <= i < |r.tables| ==> r.tables[i] in tables || fresh(r.tables[i]))
              && 0 < r.length <= |s| && RunningAll(s[r.length..], r.hdr, r.cur, after, here, plan, end)
  {
    AllFacts(s, h, cur, sts, at, plan, end);
    after, here := sts, at;
    var it := ReadItem(s, h.ncol);
    if it.Corrupt? {
      r := Failed;
    } else if it.value.Head? {
      r, after := AbsorbHead(s, h, cur, tables, it.value.hdr, sts, at, plan, end);
    } else {
      r, after, here := AbsorbRecord(s, h, cur, tables, it.value, sts, at, plan, end);
    }
  }

  /** Read every change of a changeset into the group. Succeeds exactly when the changeset can be read,
      its changes stand under headers, and its tables have the shapes the group knows; then the group stands
      for the changes before it and those in it, from every database. */
  method ConcatAbsorb(changeset: bytes, tables: seq<ConcatTable>, ghost sts: seq<TableState>, ghost at: Course)
    returns (r: Result<seq<ConcatTable>>, ghost after: seq<TableState>)
    requires Shows(tables, sts) && StatesOk(sts) && StandingAll(Views(sts), at)
    requires AllCanonical(Readable(changeset, NO_TABLE))
    modifies tables
    ensures r.Ok? <==> Plan(changeset, NO_TABLE, Headers(Views(sts)), false).Ok?
    ensures r.Ok? ==> Shows(r.value, after) && StatesOk(after)
    ensures r.Ok? ==> forall i :: 0 <= i < |r.value| ==> r.value[i] in tables || fresh(r.value[i])
    ensures r.Ok? ==> StandingAll(Views(after), ThenAll(at, Readable(changeset, NO_TABLE)))
    ensures r.Ok? ==> Plan(changeset, NO_TABLE, Headers(Views(sts)), false) == Ok(Headers(Views(after)))
  {
    var rest, h: Header, cur: Option<nat>, ts := changeset, NO_TABLE, None, tables;
    after := sts;
    ghost var here := at;
    ghost var plan := Plan(changeset, NO_TABLE, Headers(Views(sts)), false);
    ghost var end := ThenAll(at, Readable(changeset, NO_TABLE));
    AllStarts(changeset, sts, at);
    while rest != []
      invariant RunningAll(rest, h, cur, after, here, plan, end)
      invariant Shows(ts, after) && forall i :: 0 <= i < |ts| ==> ts[i] in tables || fresh(ts[i])
      decreases |rest|
    {
      var step;
      step, after, here := AbsorbItem(rest, h, cur, ts, after, here, plan, end);
      if step.Failed? {
        return Corrupt, after;
      }
      rest, h, cur, ts := rest[step.length..], step.hdr, step.cur, step.tables;
    }
    AllFacts(rest, h, cur, after, here, plan, end);
    return Ok(ts), after;
  }
}
