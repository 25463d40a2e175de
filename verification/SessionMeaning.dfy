/** A session's changeset turns the tables as they were into the tables as they are. */
module SessionMeaning {
  import opened Seqs
  import opened Bytes
  import opened Changeset
  import opened Invert
  import opened Applying
  import opened SessionValues
  import opened Recorder
  import opened Session
  import opened SessionRun
  import opened SessionOut
  import Varint

  // ----- Keys as values and keys as fields

  lemma {:induction false} SameKeyValues(a: VRow, b: VRow, flags: bytes)
    requires |a| == |b| == |flags|
    ensures KeyValues(a, flags) == KeyValues(b, flags)
            <==> forall i :: 0 <= i < |flags| && IsKey(flags, i) ==> a[i] == b[i]
  {
    if flags != [] {
      var a', b', f := a[1..], b[1..], flags[1..];
      SameKeyValues(a', b', f);
      KeyTail(a, b, flags);
      if flags[0] != 0 {
        ConsInjective(a[0], KeyValues(a', f), b[0], KeyValues(b', f));
        assert IsKey(flags, 0);
      } else {
        assert [] + KeyValues(a', f) == KeyValues(a', f) && [] + KeyValues(b', f) == KeyValues(b', f);
      }
    }
  }

  lemma {:induction false} ConsInjective<T>(x: T, a: seq<T>, y: T, b: seq<T>)
    ensures [x] + a == [y] + b <==> x == y && a == b
  {
    if [x] + a == [y] + b {
      assert ([x] + a)[0] == ([y] + b)[0];
      assert ([x] + a)[1..] == ([y] + b)[1..];
    }
  }

  // The key columns agree when the first does, if it is one, and the others do.
  lemma {:induction false} KeyTail(a: VRow, b: VRow, flags: bytes)
    requires |a| == |b| == |flags| > 0
    ensures (forall i :: 0 <= i < |flags| && IsKey(flags, i) ==> a[i] == b[i])
            <==> (IsKey(flags, 0) ==> a[0] == b[0])
                 && (forall i :: 0 <= i < |flags[1..]| && IsKey(flags[1..], i) ==> a[1..][i] == b[1..][i])
  {
    if (IsKey(flags, 0) ==> a[0] == b[0])
       && (forall i :: 0 <= i < |flags[1..]| && IsKey(flags[1..], i) ==> a[1..][i] == b[1..][i]) {
      forall i | 0 <= i < |flags| && IsKey(flags, i)
        ensures a[i] == b[i]
      {
        if i > 0 {
          assert IsKey(flags[1..], i - 1);
          assert a[1..][i - 1] == b[1..][i - 1];
        }
      }
    }
  }

  /** Two rows have the same key as values exactly when they have it as fields. */
  lemma {:induction false} SameKeys(a: VRow, b: VRow, flags: bytes)
    requires |a| == |b| == |flags| && ValuesOk(a) && ValuesOk(b)
    ensures KeyValues(a, flags) == KeyValues(b, flags) <==> KeyOf(Enc(a), flags) == KeyOf(Enc(b), flags)
  {
    SameKeyValues(a, b, flags);
    SameKey(Enc(a), Enc(b), flags);
    forall i | 0 <= i < |flags|
      ensures a[i] == b[i] <==> Enc(a)[i] == Enc(b)[i]
    {
      if Encode(a[i]) == Encode(b[i]) {
        EncodeInjective(a[i], b[i]);
      }
    }
  }

  // ----- One row

  function EncOpt(x: Option<VRow>): Option<Row>
    requires x.Some? ==> ValuesOk(x.value)
  {
    match x
    case None => None
    case Some(row) => Some(Enc(row))
  }

  // The change written as an item, under its table.
  function Under(name: bytes, flags: bytes, it: Item): Located
    requires it.Change?
  {
    Located(name, flags, it.op, it.indirect, it.fields)
  }

  // `l` is a change of the row with key `pk` that takes it from `x` to `y`.
  ghost predicate Takes(l: Located, name: bytes, flags: bytes, row: VRow, x: Option<VRow>, y: Option<VRow>) {
    && RowOk(row, flags) && (x.Some? ==> ValuesOk(x.value)) && (y.Some? ==> ValuesOk(y.value))
    && Canonical(l) && l.Id() == RowId(name, KeyOf(Enc(row), flags)) && Effect(l, EncOpt(x)) == Done(EncOpt(y))
  }

  lemma {:induction false} EncGiven(row: VRow)
    requires ValuesOk(row)
    ensures AreFields(Enc(row)) && forall i :: 0 <= i < |row| ==> Enc(row)[i] != OMIT
  {
    forall i | 0 <= i < |row|
      ensures IsField(Enc(row)[i]) && Enc(row)[i] != OMIT
    {
      EncodeIsField(row[i]);
    }
  }

  lemma {:induction false} DeleteGivesAll(was: VRow, flags: bytes)
    requires ValuesOk(was)
    ensures DeleteFields(was, flags, false) == Enc(was)
    decreases was
  {
    if was != [] {
      DeleteGivesAll(was[1..], if flags == [] then [] else flags[1..]);
      assert Enc(was) == [Encode(was[0])] + Enc(was[1..]);
    }
  }

  lemma {:induction false} InsertTakes(name: bytes, flags: bytes, indirect: byte, row: VRow)
    requires RowOk(row, flags)
    ensures Takes(Located(name, flags, OP_INSERT, indirect, Enc(row)), name, flags, row, None, Some(row))
  {
    EncGiven(row);
  }

  lemma {:induction false} DeleteTakes(name: bytes, flags: bytes, indirect: byte, was: VRow)
    requires RowOk(was, flags)
    ensures Takes(Located(name, flags, OP_DELETE, indirect, DeleteFields(was, flags, false)), name, flags, was,
                  Some(was), None)
  {
    EncGiven(was);
    DeleteGivesAll(was, flags);
  }

  /** The row that an update leads to: columns that differ are new, and the others stay as they were. */
  function Settles(was: VRow, now: VRow): (r: VRow)
    requires |was| == |now|
    ensures |r| == |was|
  {
    seq(|was|, i requires 0 <= i < |was| => if Differs(was[i], now[i]) then now[i] else was[i])
  }

  /** No column goes from one zero to the other. */
  predicate NoFlip(was: VRow, now: VRow) {
    |was| == |now| && forall i :: 0 <= i < |was| ==> was[i] == now[i] || Differs(was[i], now[i])
  }

  lemma {:induction false} SettlesIff(was: VRow, now: VRow)
    requires |was| == |now|
    ensures Settles(was, now) == now <==> NoFlip(was, now)
    ensures Settles(was, was) == was && (!Changed(was, now) ==> Settles(was, now) == was)
  {
    if Settles(was, now) == now {
      forall i | 0 <= i < |was|
        ensures was[i] == now[i] || Differs(was[i], now[i])
      {
        assert Settles(was, now)[i] == now[i];
      }
    }
  }

  lemma {:induction false} SettlesOk(was: VRow, now: VRow, flags: bytes)
    requires RowOk(was, flags) && RowOk(now, flags) && KeyValues(was, flags) == KeyValues(now, flags)
    ensures RowOk(Settles(was, now), flags) && KeyValues(Settles(was, now), flags) == KeyValues(now, flags)
  {
    SameKeyValues(was, now, flags);
    SameKeyValues(Settles(was, now), now, flags);
  }

  // Where a row is after what is written for it, given where it started and where it is.
  function Landed(x: Option<VRow>, y: Option<VRow>): Option<VRow> {
    if x.Some? && y.Some? && |x.value| == |y.value| then Some(Settles(x.value, y.value)) else y
  }

  // The new fields of an update, put over the old row.
  lemma {:induction false} OverlaySettles(was: VRow, now: VRow, flags: bytes)
    requires |was| == |now| && ValuesOk(was) && ValuesOk(now)
    ensures ValuesOk(Settles(was, now))
    ensures Overlay(Enc(was), NowFields(was, now, flags, false)) == Enc(Settles(was, now))
  {
    var nf := NowFields(was, now, flags, false);
    forall i | 0 <= i < |was|
      ensures Overlay(Enc(was), nf)[i] == Enc(Settles(was, now))[i]
    {
      EncodeIsField(was[i]);
      EncodeIsField(now[i]);
    }
  }

  lemma {:induction false} UpdateTakes(name: bytes, flags: bytes, indirect: byte, was: VRow, now: VRow)
    requires RowOk(was, flags) && RowOk(now, flags) && KeyValues(was, flags) == KeyValues(now, flags)
    ensures var fields := WasFields(was, now, flags) + NowFields(was, now, flags, false);
            Takes(Located(name, flags, OP_UPDATE, indirect, fields), name, flags, now, Some(was),
                  Some(Settles(was, now)))
  {
    var wf, nf := WasFields(was, now, flags), NowFields(was, now, flags, false);
    var l := Located(name, flags, OP_UPDATE, indirect, wf + nf);
    assert l.Was() == wf && l.Now() == nf;
    SameKeyValues(was, now, flags);
    OverlaySettles(was, now, flags);
    forall i | 0 <= i < |flags|
      ensures UpdateColumn(flags, i, wf[i], nf[i]) && (wf[i] == OMIT || wf[i] == Enc(was)[i])
      ensures IsKey(flags, i) ==> l.fields[i] == Enc(now)[i]
    {
      EncodeIsField(was[i]);
      EncodeIsField(now[i]);
      if IsKey(flags, i) {
        PlainDiffers(was[i], now[i]);
      }
    }
    SameKey(l.fields, Enc(now), flags);
  }

  // The rows of a recorded change are those of its table.
  ghost predicate Fitting(c: Tracked, flags: bytes, x: Option<VRow>, y: Option<VRow>) {
    && (x.Some? ==> RowOk(x.value, flags) && KeyValues(x.value, flags) == c.pk)
    && (y.Some? ==> RowOk(y.value, flags) && KeyValues(y.value, flags) == c.pk)
    && (if c.op.Insert? then x.None? else x == Some(c.was))
  }

  // The row that tells the key of a change.
  function Witness(c: Tracked, y: Option<VRow>): VRow {
    if y.Some? then y.value else c.was
  }

  /** What is written for a recorded change takes its row from its start to where it lands; when nothing is
      written, that is where it started. */
  lemma {:induction false} EmittedTakes(c: Tracked, name: bytes, flags: bytes, x: Option<VRow>, y: Option<VRow>)
    requires Fitting(c, flags, x, y)
    ensures Emittable(c, y)
    ensures var items := EmitOne(c, y, flags, false);
            if items == [] then x == Landed(x, y)
            else
              && |items| == 1 && items[0].Change? && KeyValues(Witness(c, y), flags) == c.pk
              && Takes(Under(name, flags, items[0]), name, flags, Witness(c, y), x, Landed(x, y))
  {
    var ind := Flag(c.indirect);
    if y.Some? {
      if c.op.Insert? {
        InsertTakes(name, flags, ind, y.value);
      } else if Changed(c.was, y.value) {
        UpdateTakes(name, flags, ind, c.was, y.value);
      } else {
        SettlesIff(c.was, y.value);
      }
    } else if !c.op.Insert? {
      DeleteTakes(name, flags, ind, c.was);
    }
  }

  /** An update is faithful exactly when no column goes from one zero to the other: those are equal as
      reals, so the column counts as unchanged. */
  lemma {:induction false} UpdateFaithful(was: VRow, now: VRow, flags: bytes)
    requires |was| == |now| == |flags| && ValuesOk(was) && ValuesOk(now)
    ensures Overlay(Enc(was), NowFields(was, now, flags, false)) == Enc(now) <==> NoFlip(was, now)
  {
    OverlaySettles(was, now, flags);
    EncInjective(Settles(was, now), now);
    SettlesIff(was, now);
  }

  lemma {:induction false} EncInjective(a: VRow, b: VRow)
    requires |a| == |b| && ValuesOk(a) && ValuesOk(b)
    ensures Enc(a) == Enc(b) <==> a == b
  {
    if Enc(a) == Enc(b) {
      forall i | 0 <= i < |a|
        ensures a[i] == b[i]
      {
        assert Enc(a)[i] == Enc(b)[i];
        EncodeInjective(a[i], b[i]);
      }
    }
  }

  /** The failing case: an update from 0.0 to -0.0 writes nothing at all. */
  lemma {:induction false} SignedZeroIsLost()
    ensures var zero, negative := Real(0), Real(TWO_63);
            && ValueOk(zero) && ValueOk(negative) && zero != negative && !Changed([zero], [negative])
  {
    assert TWO_63 % TWO_63 == 0;
  }

  // ----- The written items are a changeset

  predicate ShapeOk(name: bytes, flags: bytes) {
    0 < |flags| < Varint.TWO_56 && 0 !in name
  }

  ghost predicate ShapesOk(shapes: Shapes) {
    forall name :: name in shapes ==> ShapeOk(name, shapes[name])
  }

  lemma {:induction false} WrittenHeader(name: bytes, flags: bytes)
    requires ShapeOk(name, flags)
    ensures IsHeader(HeaderFor(name, flags, false))
  {
    var lead := [HEADER_BYTE] + LengthBytes(|flags|);
    LengthReadsBack(|flags|, []);
    assert lead[1..] == LengthBytes(|flags|) + [];
    assert HeaderOf(HeaderFor(name, flags, false), lead);
  }

  // Changes of one table, all of the right size.
  ghost predicate ChangesFor(items: seq<Item>, flags: bytes) {
    forall i :: 0 <= i < |items| ==> items[i].Change? && IsItem(items[i], |flags|)
  }

  function Unders(items: seq<Item>, name: bytes, flags: bytes): (r: seq<Located>)
    requires forall i :: 0 <= i < |items| ==> items[i].Change?
    ensures |r| == |items|
  {
    seq(|items|, i requires 0 <= i < |items| => Under(name, flags, items[i]))
  }

  lemma {:induction false} ChangesReadBack(items: seq<Item>, h: Header)
    requires ChangesFor(items, h.pk) && h.ncol == |h.pk|
    ensures AreItems(items, h.ncol) && Locate(items, h) == Unders(items, h.name, h.pk)
    decreases items
  {
    if items != [] {
      assert forall i :: 0 <= i < |items| - 1 ==> items[1..][i] == items[i + 1];
      ChangesReadBack(items[1..], h);
      assert Unders(items, h.name, h.pk) == [Under(h.name, h.pk, items[0])] + Unders(items[1..], h.name, h.pk);
    }
  }

  function TableOf(items: seq<Item>, h: Header): seq<Item> {
    if items == [] then [] else [Head(h)] + items
  }

  lemma {:induction false} TableReadsBack(items: seq<Item>, h: Header, n: nat, k: Header)
    requires ChangesFor(items, h.pk) && h.ncol == |h.pk| && IsHeader(h)
    ensures AreItems(TableOf(items, h), n)
    ensures Locate(TableOf(items, h), k) == Unders(items, h.name, h.pk)
  {
    if items != [] {
      ChangesReadBack(items, h);
      assert ([Head(h)] + items)[1..] == items;
    }
  }

  lemma {:induction false} AreItemsCat(a: seq<Item>, b: seq<Item>, n: nat)
    requires AreItems(a, n) && forall m :: AreItems(b, m)
    ensures AreItems(a + b, n)
    decreases a
  {
    if a == [] {
      assert a + b == b;
    } else {
      AreItemsCat(a[1..], b, NextCols(a[0], n));
      assert (a + b)[1..] == a[1..] + b && (a + b)[0] == a[0];
    }
  }

  lemma {:induction false} LocateCat(a: seq<Item>, b: seq<Item>, h: Header, cs: seq<Located>)
    requires forall k :: Locate(b, k) == cs
    ensures Locate(a + b, h) == Locate(a, h) + cs
    decreases a
  {
    if a == [] {
      assert a + b == b && [] + cs == cs;
    } else {
      assert (a + b)[1..] == a[1..] + b && (a + b)[0] == a[0];
      match a[0]
      case Head(hdr) => LocateCat(a[1..], b, hdr, cs);
      case Change(op, indirect, fields) =>
        LocateCat(a[1..], b, h, cs);
        Assoc([Located(h.name, h.pk, op, indirect, fields)], Locate(a[1..], h), cs);
    }
  }

  // ----- The changes of one table

  lemma {:induction false} EmittedIsItem(c: Tracked, flags: bytes, x: Option<VRow>, y: Option<VRow>)
    requires Fitting(c, flags, x, y) && Emittable(c, y)
    ensures ChangesFor(EmitOne(c, y, flags, false), flags)
  {
    OmitIsField();
    if y.Some? {
      EncGiven(y.value);
    }
    if !c.op.Insert? {
      EncGiven(c.was);
      DeleteGivesAll(c.was, flags);
    }
    if y.Some? && !c.op.Insert? {
      var wf, nf := WasFields(c.was, y.value, flags), NowFields(c.was, y.value, flags, false);
      forall i | 0 <= i < |wf|
        ensures IsField(wf[i]) && IsField(nf[i])
      {
        assert IsField(Enc(c.was)[i]) && IsField(Enc(y.value)[i]);
      }
    }
  }

  // Where a recorded change's row started, and where it is.
  ghost predicate FitsIn(c: Tracked, name: bytes, flags: bytes, start: VDb, now: VDb) {
    Fitting(c, flags, VGet(start, VId(name, c.pk)), Current(now, name, c))
  }

  ghost predicate AllFit(cs: seq<Tracked>, name: bytes, flags: bytes, start: VDb, now: VDb) {
    forall i {:trigger FitsIn(cs[i], name, flags, start, now)} ::
      0 <= i < |cs| ==> FitsIn(cs[i], name, flags, start, now)
  }

  // The change written for `c`, if any.
  ghost function Written(c: Tracked, name: bytes, flags: bytes, now: VDb): Option<Located>
    requires Emittable(c, Current(now, name, c))
  {
    var items := EmitOne(c, Current(now, name, c), flags, false);
    if items == [] then None else Some(Under(name, flags, items[0]))
  }

  lemma {:induction false} AllFitEmittable(cs: seq<Tracked>, name: bytes, flags: bytes, start: VDb, now: VDb)
    requires AllFit(cs, name, flags, start, now)
    ensures AllEmittable(cs, name, now)
  {
    forall i | 0 <= i < |cs|
      ensures Emittable(cs[i], Current(now, name, cs[i]))
    {
      assert FitsIn(cs[i], name, flags, start, now);
    }
  }

  ghost predicate PksDiffer(cs: seq<Tracked>) {
    forall i, j :: 0 <= i < j < |cs| ==> cs[i].pk != cs[j].pk
  }

  // `l` is what is written for a change in `cs`.
  ghost predicate Comes(l: Located, cs: seq<Tracked>, name: bytes, flags: bytes, now: VDb) {
    exists i :: 0 <= i < |cs| && WrittenAs(cs[i], name, flags, now, l)
  }

  ghost predicate WrittenAs(c: Tracked, name: bytes, flags: bytes, now: VDb, l: Located) {
    Emittable(c, Current(now, name, c)) && Written(c, name, flags, now) == Some(l)
  }

  lemma {:induction false} UndersCat(a: seq<Item>, b: seq<Item>, name: bytes, flags: bytes)
    requires ChangesFor(a, flags) && ChangesFor(b, flags)
    ensures ChangesFor(a + b, flags) && Unders(a + b, name, flags) == Unders(a, name, flags) + Unders(b, name, flags)
  {
  }

  lemma {:induction false} OneUnder(a: seq<Item>, name: bytes, flags: bytes, l: Located)
    requires ChangesFor(a, flags) && |a| <= 1
    ensures l in Unders(a, name, flags) <==> a != [] && l == Under(name, flags, a[0])
  {
    var u := Unders(a, name, flags);
    if a != [] {
      assert u[0] == Under(name, flags, a[0]) && u == [u[0]];
    }
  }

  /** The written changes are those of the recorded ones. */
  lemma {:induction false} TableWrites(cs: seq<Tracked>, name: bytes, flags: bytes, start: VDb, now: VDb)
    requires AllFit(cs, name, flags, start, now)
    ensures AllEmittable(cs, name, now)
    ensures var items := EmitAll(cs, name, flags, now, false);
            && ChangesFor(items, flags)
            && forall l :: l in Unders(items, name, flags) <==> Comes(l, cs, name, flags, now)
    decreases cs
  {
    AllFitEmittable(cs, name, flags, start, now);
    if cs != [] {
      var c, rest := cs[0], cs[1..];
      AllFitTail(cs, name, flags, start, now);
      TableWrites(rest, name, flags, start, now);
      assert FitsIn(c, name, flags, start, now);
      EmittedTakes(c, name, flags, VGet(start, VId(name, c.pk)), Current(now, name, c));
      EmittedIsItem(c, flags, VGet(start, VId(name, c.pk)), Current(now, name, c));
      var a, b := EmitOne(c, Current(now, name, c), flags, false), EmitAll(rest, name, flags, now, false);
      UndersCat(a, b, name, flags);
      forall l
        ensures l in Unders(a + b, name, flags) <==> Comes(l, cs, name, flags, now)
      {
        ComesStep(l, cs, name, flags, now);
        OneUnder(a, name, flags, l);
      }
    }
  }

  lemma {:induction false} AllFitTail(cs: seq<Tracked>, name: bytes, flags: bytes, start: VDb, now: VDb)
    requires AllFit(cs, name, flags, start, now) && cs != []
    ensures AllFit(cs[1..], name, flags, start, now)
  {
    forall i | 0 <= i < |cs[1..]|
      ensures FitsIn(cs[1..][i], name, flags, start, now)
    {
      assert FitsIn(cs[i + 1], name, flags, start, now);
    }
  }

  lemma {:induction false} ComesStep(l: Located, cs: seq<Tracked>, name: bytes, flags: bytes, now: VDb)
    requires cs != []
    ensures Comes(l, cs, name, flags, now)
            <==> WrittenAs(cs[0], name, flags, now, l) || Comes(l, cs[1..], name, flags, now)
  {
    if i :| 0 <= i < |cs| && WrittenAs(cs[i], name, flags, now, l) {
      if i > 0 {
        assert WrittenAs(cs[1..][i - 1], name, flags, now, l);
      }
    }
    if i :| 0 <= i < |cs[1..]| && WrittenAs(cs[1..][i], name, flags, now, l) {
      assert WrittenAs(cs[i + 1], name, flags, now, l);
    }
  }

  lemma {:induction false} WrittenTakes(c: Tracked, name: bytes, flags: bytes, start: VDb, now: VDb, l: Located)
    requires FitsIn(c, name, flags, start, now) && WrittenAs(c, name, flags, now, l)
    ensures KeyValues(Witness(c, Current(now, name, c)), flags) == c.pk && l.table == name && l.pk == flags
    ensures Takes(l, name, flags, Witness(c, Current(now, name, c)), VGet(start, VId(name, c.pk)),
                  Landed(VGet(start, VId(name, c.pk)), Current(now, name, c)))
  {
    EmittedTakes(c, name, flags, VGet(start, VId(name, c.pk)), Current(now, name, c));
  }

  // Changes of different rows have different identities.
  lemma {:induction false} DifferentRows(c: Tracked, d: Tracked, name: bytes, flags: bytes, start: VDb, now: VDb,
                                         l: Located, m: Located)
    requires FitsIn(c, name, flags, start, now) && WrittenAs(c, name, flags, now, l)
    requires FitsIn(d, name, flags, start, now) && WrittenAs(d, name, flags, now, m)
    requires c.pk != d.pk
    ensures l.WellFormed() && m.WellFormed() && l.Id() != m.Id()
  {
    WrittenTakes(c, name, flags, start, now, l);
    WrittenTakes(d, name, flags, start, now, m);
    SameKeys(Witness(c, Current(now, name, c)), Witness(d, Current(now, name, d)), flags);
  }

  lemma {:induction false} TableDistinct(cs: seq<Tracked>, name: bytes, flags: bytes, start: VDb, now: VDb)
    requires AllFit(cs, name, flags, start, now) && PksDiffer(cs)
    ensures AllEmittable(cs, name, now) && ChangesFor(EmitAll(cs, name, flags, now, false), flags)
    ensures var ls := Unders(EmitAll(cs, name, flags, now, false), name, flags); AllWellFormed(ls) && Distinct(ls)
    decreases cs
  {
    TableWrites(cs, name, flags, start, now);
    if cs != [] {
      var c, rest := cs[0], cs[1..];
      assert forall i :: 0 <= i < |rest| ==> rest[i] == cs[i + 1];
      AllFitTail(cs, name, flags, start, now);
      TableDistinct(rest, name, flags, start, now);
      TableWrites(rest, name, flags, start, now);
      assert FitsIn(c, name, flags, start, now);
      EmittedTakes(c, name, flags, VGet(start, VId(name, c.pk)), Current(now, name, c));
      EmittedIsItem(c, flags, VGet(start, VId(name, c.pk)), Current(now, name, c));
      var a, b := EmitOne(c, Current(now, name, c), flags, false), EmitAll(rest, name, flags, now, false);
      UndersCat(a, b, name, flags);
      var ms := Unders(b, name, flags);
      if a == [] {
        assert Unders(a, name, flags) + ms == ms;
      } else {
        var l := Under(name, flags, a[0]);
        assert Unders(a, name, flags) == [l];
        forall m | m in ms
          ensures m.WellFormed() && m.Id() != l.Id()
        {
          assert Comes(m, rest, name, flags, now);
          var i :| 0 <= i < |rest| && WrittenAs(rest[i], name, flags, now, m);
          assert FitsIn(rest[i], name, flags, start, now);
          DifferentRows(c, rest[i], name, flags, start, now, l, m);
        }
        DistinctCons(l, ms);
      }
    }
  }

  lemma {:induction false} DistinctCons(l: Located, ms: seq<Located>)
    requires l.WellFormed() && AllWellFormed(ms) && Distinct(ms)
    requires forall m :: m in ms ==> m.WellFormed() && m.Id() != l.Id()
    ensures AllWellFormed([l] + ms) && Distinct([l] + ms)
  {
    var all := [l] + ms;
    assert forall i :: 0 <= i < |all| ==> all[i] == if i == 0 then l else ms[i - 1];
    forall i, j | 0 <= i < j < |all|
      ensures all[i].Id() != all[j].Id()
    {
      assert all[j] in ms;
    }
  }
}
