/** Writing a session's changes out, as a changeset or as a patchset. */
module SessionOut {
  import opened Seqs
  import opened Bytes
  import BigEndian
  import opened Changeset
  import opened Invert
  import opened SessionValues
  import opened Recorder
  import opened Session
  import Buckets

  const PATCHSET_BYTE: byte := 0x50

  predicate ValuesOk(row: VRow) {
    forall i :: 0 <= i < |row| ==> ValueOk(row[i])
  }

  /** A row as a record. */
  function Enc(row: VRow): (r: seq<bytes>)
    requires ValuesOk(row)
    ensures |r| == |row|
  {
    seq(|row|, i requires 0 <= i < |row| => Encode(row[i]))
  }

  // ----- The records of a change

  function WasFields(was: VRow, now: VRow, flags: bytes): (r: seq<bytes>)
    requires |was| == |now| && ValuesOk(was)
    ensures |r| == |was|
  {
    seq(|was|, i requires 0 <= i < |was| =>
      if Differs(was[i], now[i]) || IsKey(flags, i) then Encode(was[i]) else OMIT)
  }

  function NowFields(was: VRow, now: VRow, flags: bytes, patchset: bool): (r: seq<bytes>)
    requires |was| == |now| && ValuesOk(now)
    ensures |r| == |was|
  {
    seq(|was|, i requires 0 <= i < |was| =>
      if Differs(was[i], now[i]) || (patchset && IsKey(flags, i)) then Encode(now[i]) else OMIT)
  }

  predicate Changed(was: VRow, now: VRow)
    requires |was| == |now|
  {
    exists i :: 0 <= i < |was| && Differs(was[i], now[i])
  }

  /** The fields of an update; none when no column differs. */
  function UpdateFields(was: VRow, now: VRow, flags: bytes, patchset: bool): Option<seq<bytes>>
    requires |was| == |now| && ValuesOk(was) && ValuesOk(now)
  {
    if !Changed(was, now) then None
    else if patchset then Some(NowFields(was, now, flags, true))
    else Some(WasFields(was, now, flags) + NowFields(was, now, flags, false))
  }

  /** The fields of a delete: all of them, or in a patchset those of the key. */
  function DeleteFields(was: VRow, flags: bytes, patchset: bool): seq<bytes>
    requires ValuesOk(was)
  {
    if was == [] then []
    else
      (if patchset && !IsKey(flags, 0) then [] else [Encode(was[0])])
      + DeleteFields(was[1..], if flags == [] then [] else flags[1..], patchset)
  }

  function Flag(b: bool): byte {
    if b then 1 else 0
  }

  // The rows an item is made of.
  ghost predicate Emittable(c: Tracked, current: Option<VRow>) {
    && (current.Some? ==> ValuesOk(current.value))
    && (!c.op.Insert? ==> ValuesOk(c.was) && (current.Some? ==> |c.was| == |current.value|))
  }

  /** What is written for a recorded change, given the row's current value. */
  ghost function EmitOne(c: Tracked, current: Option<VRow>, flags: bytes, patchset: bool): seq<Item>
    requires Emittable(c, current)
  {
    match (c.op, current)
    case (Insert, Some(row)) => [Change(OP_INSERT, Flag(c.indirect), Enc(row))]
    case (Insert, None) => []
    case (_, Some(row)) =>
      match UpdateFields(c.was, row, flags, patchset) {
        case None => []
        case Some(fields) => [Change(OP_UPDATE, Flag(c.indirect), fields)]
      }
    case (_, None) => [Change(OP_DELETE, Flag(c.indirect), DeleteFields(c.was, flags, patchset))]
  }

  // ----- The methods that append

  method AppendValue(out: bytes, v: Value) returns (r: bytes)
    requires ValueOk(v)
    ensures r == out + Encode(v)
  {
    match v
    case Null => r := out + [T_NULL];
    case Integer(i) => r := out + ([T_INT] + BigEndian.Be64(Unsigned(i)));
    case Real(bits) => r := out + ([T_FLOAT] + BigEndian.Be64(bits));
    case Text(t) =>
      r := AppendVarint(out + [T_TEXT], |t|);
      SizedAppend(out, T_TEXT, t);
      r := r + t;
    case Blob(b) =>
      r := AppendVarint(out + [T_BLOB], |b|);
      SizedAppend(out, T_BLOB, b);
      r := r + b;
  }

  lemma {:induction false} SizedAppend(out: bytes, kind: byte, b: bytes)
    ensures ((out + [kind]) + LengthBytes(|b|)) + b == out + Sized(kind, b)
  {
  }

  lemma {:induction false} JoinOnto(out: bytes, fs: seq<bytes>, i: nat, r: bytes)
    requires i < |fs| && r == out + Join(fs[..i])
    ensures r + fs[i] == out + Join(fs[..i + 1])
  {
    JoinSnoc(fs, i);
  }

  method AppendRow(out: bytes, row: VRow) returns (r: bytes)
    requires ValuesOk(row)
    ensures r == out + Join(Enc(row))
  {
    r := out;
    ghost var fs := Enc(row);
    for i := 0 to |row|
      invariant r == out + Join(fs[..i])
    {
      JoinOnto(out, fs, i, r);
      r := AppendValue(r, row[i]);
    }
    assert fs[..|row|] == fs;
  }

  lemma {:induction false} DeleteSnoc(was: VRow, flags: bytes, patchset: bool, i: nat)
    requires ValuesOk(was) && i < |was|
    ensures DeleteFields(was[..i + 1], flags, patchset)
         == DeleteFields(was[..i], flags, patchset) + (if patchset && !IsKey(flags, i) then [] else [Encode(was[i])])
    decreases i
  {
    assert was[..i + 1][0] == was[0] && was[..i + 1][1..] == was[1..][..i];
    if i > 0 {
      assert was[..i][0] == was[0] && was[..i][1..] == was[1..][..i - 1];
      var rest := if flags == [] then [] else flags[1..];
      DeleteSnoc(was[1..], rest, patchset, i - 1);
      assert IsKey(rest, i - 1) == IsKey(flags, i);
    }
  }

  /** Append the record of a delete. */
  method AppendDelete(out: bytes, was: VRow, flags: bytes, patchset: bool, indirect: bool) returns (r: bytes)
    requires ValuesOk(was)
    ensures r == out + ([OP_DELETE, Flag(indirect)] + Join(DeleteFields(was, flags, patchset)))
  {
    var front := out + [OP_DELETE, Flag(indirect)];
    r := front;
    for i := 0 to |was|
      invariant r == front + Join(DeleteFields(was[..i], flags, patchset))
    {
      DeleteSnoc(was, flags, patchset, i);
      JoinMaybe(front, DeleteFields(was[..i], flags, patchset), Encode(was[i]));
      if !patchset || IsKey(flags, i) {
        r := AppendValue(r, was[i]);
      }
    }
    assert was[..|was|] == was;
  }

  lemma {:induction false} JoinMaybe(front: bytes, fs: seq<bytes>, f: bytes)
    ensures front + Join(fs + [f]) == (front + Join(fs)) + f && fs + [] == fs
  {
    JoinCat(fs, [f]);
    assert Join([f]) == f + Join([f][1..]) == f;
  }

  method AppendField(out: bytes, given: bool, v: Value) returns (r: bytes)
    requires ValueOk(v)
    ensures r == out + if given then Encode(v) else OMIT
  {
    if given {
      r := AppendValue(out, v);
    } else {
      r := out + [0];
    }
  }

  // The first `i` columns of the two records, and whether any of them differs.
  ghost function WasBytes(was: VRow, now: VRow, flags: bytes, i: nat): bytes
    requires |was| == |now| && ValuesOk(was) && i <= |was|
  {
    Join(WasFields(was, now, flags)[..i])
  }

  ghost function NowBytes(was: VRow, now: VRow, flags: bytes, patchset: bool, i: nat): bytes
    requires |was| == |now| && ValuesOk(now) && i <= |was|
  {
    Join(NowFields(was, now, flags, patchset)[..i])
  }

  ghost predicate ChangedBefore(was: VRow, now: VRow, i: nat)
    requires |was| == |now| && i <= |was|
  {
    exists j :: 0 <= j < i && Differs(was[j], now[j])
  }

  // One column more.
  method UpdateColumnBytes(was: VRow, now: VRow, flags: bytes, patchset: bool, i: nat, o: bytes, n: bytes,
                           changed: bool)
    returns (o': bytes, n': bytes, changed': bool)
    requires |was| == |now| && ValuesOk(was) && ValuesOk(now) && i < |was|
    requires !patchset ==> o == WasBytes(was, now, flags, i)
    requires n == NowBytes(was, now, flags, patchset, i) && changed == ChangedBefore(was, now, i)
    ensures if patchset then o' == o else o' == WasBytes(was, now, flags, i + 1)
    ensures n' == NowBytes(was, now, flags, patchset, i + 1) && changed' == ChangedBefore(was, now, i + 1)
  {
    var differs := Differs(was[i], now[i]);
    JoinSnoc(WasFields(was, now, flags), i);
    JoinSnoc(NowFields(was, now, flags, patchset), i);
    o', changed' := o, changed || differs;
    if !patchset {
      o' := AppendField(o, differs || IsKey(flags, i), was[i]);
    }
    n' := AppendField(n, differs || (patchset && IsKey(flags, i)), now[i]);
  }

  // The old record and the new one, and whether anything differs.
  method UpdateRecords(was: VRow, now: VRow, flags: bytes, patchset: bool) returns (o: bytes, n: bytes, changed: bool)
    requires |was| == |now| && ValuesOk(was) && ValuesOk(now)
    ensures o == if patchset then [] else Join(WasFields(was, now, flags))
    ensures n == Join(NowFields(was, now, flags, patchset)) && changed == Changed(was, now)
  {
    o, n, changed := [], [], false;
    for i := 0 to |was|
      invariant if patchset then o == [] else o == WasBytes(was, now, flags, i)
      invariant n == NowBytes(was, now, flags, patchset, i) && changed == ChangedBefore(was, now, i)
    {
      o, n, changed := UpdateColumnBytes(was, now, flags, patchset, i, o, n, changed);
    }
    WholeRecords(was, now, flags, patchset);
  }

  lemma {:induction false} WholeRecords(was: VRow, now: VRow, flags: bytes, patchset: bool)
    requires |was| == |now| && ValuesOk(was) && ValuesOk(now)
    ensures WasBytes(was, now, flags, |was|) == Join(WasFields(was, now, flags))
    ensures NowBytes(was, now, flags, patchset, |was|) == Join(NowFields(was, now, flags, patchset))
  {
    var wf, nf := WasFields(was, now, flags), NowFields(was, now, flags, patchset);
    assert wf[..|was|] == wf && nf[..|was|] == nf;
  }

  lemma {:induction false} UpdateBytes(was: VRow, now: VRow, flags: bytes, patchset: bool)
    requires |was| == |now| && ValuesOk(was) && ValuesOk(now) && Changed(was, now)
    ensures (if patchset then [] else Join(WasFields(was, now, flags))) + Join(NowFields(was, now, flags, patchset))
         == Join(UpdateFields(was, now, flags, patchset).value)
  {
    if patchset {
      assert [] + Join(NowFields(was, now, flags, true)) == Join(NowFields(was, now, flags, true));
    } else {
      JoinCat(WasFields(was, now, flags), NowFields(was, now, flags, false));
    }
  }

  /** Append the records of an update; nothing when no column differs. */
  method AppendUpdate(out: bytes, was: VRow, now: VRow, flags: bytes, patchset: bool, indirect: bool)
    returns (r: bytes, wrote: bool)
    requires |was| == |now| && ValuesOk(was) && ValuesOk(now)
    ensures match UpdateFields(was, now, flags, patchset)
            case None => !wrote && r == out
            case Some(fields) => wrote && r == out + ([OP_UPDATE, Flag(indirect)] + Join(fields))
  {
    var o, n, changed := UpdateRecords(was, now, flags, patchset);
    if !changed {
      return out, false;
    }
    UpdateBytes(was, now, flags, patchset);
    return out + ([OP_UPDATE, Flag(indirect)] + (o + n)), true;
  }

  // ----- Tables

  // The current row of a recorded change.
  function Current(now: VDb, name: bytes, c: Tracked): Option<VRow> {
    VGet(now, VId(name, c.pk))
  }

  ghost predicate AllEmittable(cs: seq<Tracked>, name: bytes, now: VDb) {
    forall i {:trigger Emittable(cs[i], Current(now, name, cs[i]))} ::
      0 <= i < |cs| ==> Emittable(cs[i], Current(now, name, cs[i]))
  }

  ghost function EmitAll(cs: seq<Tracked>, name: bytes, flags: bytes, now: VDb, patchset: bool): seq<Item>
    requires AllEmittable(cs, name, now)
    decreases cs
  {
    if cs == [] then []
    else
      assert Emittable(cs[0], Current(now, name, cs[0]));
      AllEmittableTail(cs, name, now);
      EmitOne(cs[0], Current(now, name, cs[0]), flags, patchset) + EmitAll(cs[1..], name, flags, now, patchset)
  }

  lemma {:induction false} AllEmittableTail(cs: seq<Tracked>, name: bytes, now: VDb)
    requires AllEmittable(cs, name, now) && cs != []
    ensures AllEmittable(cs[1..], name, now)
  {
    forall i | 0 <= i < |cs[1..]|
      ensures Emittable(cs[1..][i], Current(now, name, cs[1..][i]))
    {
      assert Emittable(cs[i + 1], Current(now, name, cs[i + 1]));
    }
  }

  /** The header of a table. */
  function HeaderFor(name: bytes, flags: bytes, patchset: bool): Header {
    var lead := [if patchset then PATCHSET_BYTE else HEADER_BYTE] + LengthBytes(|flags|);
    Header(|flags|, flags, name, lead + flags + name + [0])
  }

  ghost function TableItems(st: TrackState, now: VDb, patchset: bool): seq<Item>
    requires AllEmittable(Buckets.Flatten(st.buckets), st.name, now)
  {
    var items := EmitAll(Buckets.Flatten(st.buckets), st.name, st.pkFlags, now, patchset);
    if items == [] then [] else [Head(HeaderFor(st.name, st.pkFlags, patchset))] + items
  }

  ghost predicate StatesEmittable(sts: seq<TrackState>, now: VDb) {
    forall t {:trigger AllEmittable(Buckets.Flatten(sts[t].buckets), sts[t].name, now)} ::
      0 <= t < |sts| ==> AllEmittable(Buckets.Flatten(sts[t].buckets), sts[t].name, now)
  }

  /** The items of the whole session, table by table in the order they were first touched. */
  ghost function SessionItems(sts: seq<TrackState>, n: nat, now: VDb, patchset: bool): seq<Item>
    requires n <= |sts| && StatesEmittable(sts, now)
  {
    if n == 0 then []
    else
      assert AllEmittable(Buckets.Flatten(sts[n - 1].buckets), sts[n - 1].name, now);
      SessionItems(sts, n - 1, now, patchset) + TableItems(sts[n - 1], now, patchset)
  }

  // ----- Writing

  lemma {:induction false} EmitSnoc(cs: seq<Tracked>, i: nat, name: bytes, flags: bytes, now: VDb, patchset: bool)
    requires AllEmittable(cs, name, now) && i < |cs|
    ensures AllEmittable(cs[..i], name, now) && AllEmittable(cs[..i + 1], name, now)
    ensures Emittable(cs[i], Current(now, name, cs[i]))
    ensures EmitAll(cs[..i + 1], name, flags, now, patchset)
         == EmitAll(cs[..i], name, flags, now, patchset)
            + EmitOne(cs[i], Current(now, name, cs[i]), flags, patchset)
    decreases i
  {
    PrefixEmittable(cs, i, name, now);
    PrefixEmittable(cs, i + 1, name, now);
    assert Emittable(cs[i], Current(now, name, cs[i]));
    AllEmittableTail(cs, name, now);
    assert cs[..i + 1][0] == cs[0] && cs[..i + 1][1..] == cs[1..][..i];
    if i > 0 {
      EmitSnoc(cs[1..], i - 1, name, flags, now, patchset);
      assert cs[..i][0] == cs[0] && cs[..i][1..] == cs[1..][..i - 1];
    }
  }

  lemma {:induction false} PrefixEmittable(cs: seq<Tracked>, i: nat, name: bytes, now: VDb)
    requires AllEmittable(cs, name, now) && i <= |cs|
    ensures AllEmittable(cs[..i], name, now)
  {
    forall j | 0 <= j < i
      ensures Emittable(cs[..i][j], Current(now, name, cs[..i][j]))
    {
      assert Emittable(cs[j], Current(now, name, cs[j]));
    }
  }

  /** Append what is written for one recorded change. */
  method AppendChange(out: bytes, c: Tracked, current: Option<VRow>, flags: bytes, patchset: bool)
    returns (r: bytes, wrote: bool)
    requires Emittable(c, current)
    ensures r == out + Unparse(EmitOne(c, current, flags, patchset))
    ensures wrote == (EmitOne(c, current, flags, patchset) != [])
  {
    r, wrote := out, false;
    match (c.op, current)
    case (Insert, Some(row)) =>
      r := AppendRow(out + [OP_INSERT, Flag(c.indirect)], row);
      wrote := true;
      OneItem(out, Change(OP_INSERT, Flag(c.indirect), Enc(row)));
    case (Insert, None) =>
    case (_, Some(row)) =>
      r, wrote := AppendUpdate(out, c.was, row, flags, patchset, c.indirect);
      if wrote {
        OneItem(out, Change(OP_UPDATE, Flag(c.indirect), UpdateFields(c.was, row, flags, patchset).value));
      }
    case (_, None) =>
      r := AppendDelete(out, c.was, flags, patchset, c.indirect);
      wrote := true;
      OneItem(out, Change(OP_DELETE, Flag(c.indirect), DeleteFields(c.was, flags, patchset)));
  }

  lemma {:induction false} OneItem(out: bytes, it: Item)
    requires it.Change?
    ensures out + Unparse([it]) == out + ([it.op, it.indirect] + Join(it.fields))
    ensures out + Unparse([it]) == (out + [it.op, it.indirect]) + Join(it.fields)
  {
    assert [it] == [it] + [];
    UnparseCons(it, []);
  }

  // The changes of a table, in the order of its buckets.
  method AppendChanges(out: bytes, cs: seq<Tracked>, name: bytes, flags: bytes, now: VDb, patchset: bool)
    returns (r: bytes, wrote: bool)
    requires AllEmittable(cs, name, now)
    ensures r == out + Unparse(EmitAll(cs, name, flags, now, patchset))
    ensures wrote == (EmitAll(cs, name, flags, now, patchset) != [])
  {
    r, wrote := out, false;
    assert cs[..0] == [];
    for i := 0 to |cs|
      invariant AllEmittable(cs[..i], name, now)
      invariant r == out + Unparse(EmitAll(cs[..i], name, flags, now, patchset))
      invariant wrote == (EmitAll(cs[..i], name, flags, now, patchset) != [])
    {
      EmitSnoc(cs, i, name, flags, now, patchset);
      var w;
      r, w := AppendChange(r, cs[i], Current(now, name, cs[i]), flags, patchset);
      UnparseOnto(out, EmitAll(cs[..i], name, flags, now, patchset),
                  EmitOne(cs[i], Current(now, name, cs[i]), flags, patchset));
      wrote := wrote || w;
    }
    assert cs[..|cs|] == cs;
  }

  lemma {:induction false} UnparseOnto(out: bytes, a: seq<Item>, b: seq<Item>)
    ensures (out + Unparse(a)) + Unparse(b) == out + Unparse(a + b)
  {
    UnparseCat(a, b);
    Assoc(out, Unparse(a), Unparse(b));
  }

  // One table: the header is taken back when no change follows it.
  method AppendTable(out: bytes, table: TableChanges, now: VDb, patchset: bool, ghost st: TrackState)
    returns (r: bytes)
    requires Holds(table, st) && TrackOk(st.buckets, st.nentry)
    requires AllEmittable(Buckets.Flatten(st.buckets), st.name, now)
    ensures r == out + Unparse(TableItems(st, now, patchset))
  {
    Buckets.FlattenIsSpread(st.buckets);
    assert |multiset(Buckets.Flatten(st.buckets))| == |Buckets.Flatten(st.buckets)|;
    if table.nentry == 0 {
      return out;
    }
    var h := HeaderFor(table.name, table.pkFlags, patchset);
    var lead := AppendVarint(out + [if patchset then PATCHSET_BYTE else HEADER_BYTE], |table.pkFlags|);
    var front := lead + table.pkFlags + table.name + [0];
    HeaderOnto(out, table.name, table.pkFlags, patchset);
    var wrote;
    r, wrote := AppendChanges(front, Buckets.Flatten(table.buckets), table.name, table.pkFlags, now, patchset);
    ghost var items := EmitAll(Buckets.Flatten(st.buckets), st.name, st.pkFlags, now, patchset);
    if !wrote {
      return out;
    }
    UnparseCons(Head(h), items);
    Assoc(out, h.raw, Unparse(items));
  }

  lemma {:induction false} HeaderOnto(out: bytes, name: bytes, flags: bytes, patchset: bool)
    ensures var b: byte := if patchset then PATCHSET_BYTE else HEADER_BYTE;
            (((out + [b]) + LengthBytes(|flags|)) + flags + name) + [0] == out + HeaderFor(name, flags, patchset).raw
  {
  }

  /** Serialize the session against the current rows. */
  method Serialize(s: SessionState, now: VDb, patchset: bool, ghost sts: seq<TrackState>) returns (out: bytes)
    requires Shows(s.tables, sts) && TracksOk(sts) && StatesEmittable(sts, now)
    ensures out == Unparse(SessionItems(sts, |sts|, now, patchset))
  {
    out := [];
    for t := 0 to |s.tables|
      invariant out == Unparse(SessionItems(sts, t, now, patchset))
    {
      assert TrackOk(sts[t].buckets, sts[t].nentry) && Holds(s.tables[t], sts[t]);
      assert AllEmittable(Buckets.Flatten(sts[t].buckets), sts[t].name, now);
      UnparseCat(SessionItems(sts, t, now, patchset), TableItems(sts[t], now, patchset));
      out := AppendTable(out, s.tables[t], now, patchset, sts[t]);
    }
  }
}
