/** Parsing what a session writes gives back its tables and changes, for changesets and patchsets. */
module SessionParse {
  import opened Seqs
  import opened Bytes
  import opened Changeset
  import opened Invert
  import opened SessionValues
  import opened Recorder
  import opened Session
  import opened SessionOut
  import opened ChangesetParse
  import SessionMeaning
  import SessionEnd
  import Varint

  // ----- The record of a written change

  function Given(row: VRow): (r: seq<Option<Value>>)
    ensures |r| == |row|
  {
    seq(|row|, i requires 0 <= i < |row| => Some(row[i]))
  }

  function WasGiven(was: VRow, now: VRow, flags: bytes): (r: seq<Option<Value>>)
    requires |was| == |now|
    ensures |r| == |was|
  {
    seq(|was|, i requires 0 <= i < |was| =>
      if Differs(was[i], now[i]) || IsKey(flags, i) then Some(was[i]) else None)
  }

  function NowGiven(was: VRow, now: VRow, flags: bytes, patchset: bool): (r: seq<Option<Value>>)
    requires |was| == |now|
    ensures |r| == |was|
  {
    seq(|was|, i requires 0 <= i < |was| =>
      if Differs(was[i], now[i]) || (patchset && IsKey(flags, i)) then Some(now[i]) else None)
  }

  /** What a reader is to find for a recorded change, given the row's current value: the whole row of an
      insert; of an update the changed columns and the key; of a delete the whole row, or in a patchset
      its key. */
  function RecordOf(c: Tracked, current: Option<VRow>, flags: bytes, patchset: bool): seq<ChangeRecord>
    requires !c.op.Insert? && current.Some? ==> |c.was| == |current.value|
  {
    match (c.op, current)
    case (Insert, Some(row)) => [ChangeRecord(Insert, [], Given(row))]
    case (Insert, None) => []
    case (_, Some(row)) =>
      if !Changed(c.was, row) then []
      else if patchset then
        var now := NowGiven(c.was, row, flags, true);
        [ChangeRecord(Update, KeyPart(now, flags), now)]
      else [ChangeRecord(Update, WasGiven(c.was, row, flags), NowGiven(c.was, row, flags, false))]
    case (_, None) =>
      [ChangeRecord(Delete, if patchset then KeyOnly(c.was, flags) else Given(c.was), [])]
  }

  lemma {:induction false} GivenSpells(row: VRow)
    requires ValuesOk(row)
    ensures Spells(Enc(row), Given(row))
  {
    assert Enc(row) == EncFields(Given(row));
  }

  lemma {:induction false} UpdateSpells(was: VRow, now: VRow, flags: bytes, patchset: bool)
    requires |was| == |now| && ValuesOk(was) && ValuesOk(now)
    ensures Spells(WasFields(was, now, flags), WasGiven(was, now, flags))
    ensures Spells(NowFields(was, now, flags, patchset), NowGiven(was, now, flags, patchset))
  {
    assert WasFields(was, now, flags) == EncFields(WasGiven(was, now, flags));
    assert NowFields(was, now, flags, patchset) == EncFields(NowGiven(was, now, flags, patchset));
  }

  // The rows of a recorded change have the width of the table.
  ghost predicate Wide(c: Tracked, current: Option<VRow>, flags: bytes) {
    && Emittable(c, current)
    && (current.Some? ==> |current.value| == |flags|) && (!c.op.Insert? ==> |c.was| == |flags|)
  }

  /** What is written for a change spells its record. */
  lemma {:induction false} WrittenSpells(c: Tracked, current: Option<VRow>, flags: bytes, patchset: bool)
    requires Wide(c, current, flags)
    ensures AllSpell(EmitOne(c, current, flags, patchset), flags, patchset, RecordOf(c, current, flags, patchset))
  {
    match (c.op, current)
    case (Insert, Some(row)) => GivenSpells(row);
    case (Insert, None) =>
    case (_, Some(row)) => UpdateSpells(c.was, row, flags, patchset);
    case (_, None) =>
      if patchset {
        assert KeyOnly(c.was, flags) == KeyOnly(c.was, flags);
        assert SpellsKey(DeleteFields(c.was, flags, true), flags, KeyOnly(c.was, flags));
      } else {
        SessionMeaning.DeleteGivesAll(c.was, flags);
        GivenSpells(c.was);
      }
  }

  // ----- A table

  ghost predicate AllWide(cs: seq<Tracked>, name: bytes, flags: bytes, now: VDb) {
    forall i {:trigger Wide(cs[i], Current(now, name, cs[i]), flags)} ::
      0 <= i < |cs| ==> Wide(cs[i], Current(now, name, cs[i]), flags)
  }

  function RecordsOf(cs: seq<Tracked>, name: bytes, flags: bytes, now: VDb, patchset: bool): seq<ChangeRecord>
    decreases cs
  {
    if cs == [] then []
    else
      var y := Current(now, name, cs[0]);
      (if cs[0].op.Insert? || y.None? || |cs[0].was| == |y.value| then RecordOf(cs[0], y, flags, patchset) else [])
      + RecordsOf(cs[1..], name, flags, now, patchset)
  }

  lemma {:induction false} AllSpellCat(a: seq<Item>, b: seq<Item>, flags: bytes, patchset: bool, ra: seq<ChangeRecord>,
                                       rb: seq<ChangeRecord>)
    requires AllSpell(a, flags, patchset, ra) && AllSpell(b, flags, patchset, rb)
    ensures AllSpell(a + b, flags, patchset, ra + rb)
  {
    forall i | 0 <= i < |a + b|
      ensures SpellsChange((a + b)[i], flags, patchset, (ra + rb)[i])
    {
      if i < |a| {
        assert SpellsChange(a[i], flags, patchset, ra[i]);
      } else {
        assert SpellsChange(b[i - |a|], flags, patchset, rb[i - |a|]);
      }
    }
  }

  lemma {:induction false} TableSpells(cs: seq<Tracked>, name: bytes, flags: bytes, now: VDb, patchset: bool)
    requires AllWide(cs, name, flags, now)
    ensures AllEmittable(cs, name, now)
    ensures AllSpell(EmitAll(cs, name, flags, now, patchset), flags, patchset,
                     RecordsOf(cs, name, flags, now, patchset))
    decreases cs
  {
    forall i | 0 <= i < |cs|
      ensures Emittable(cs[i], Current(now, name, cs[i]))
    {
      assert Wide(cs[i], Current(now, name, cs[i]), flags);
    }
    if cs != [] {
      var c, rest := cs[0], cs[1..];
      forall i | 0 <= i < |rest|
        ensures Wide(rest[i], Current(now, name, rest[i]), flags)
      {
        assert Wide(cs[i + 1], Current(now, name, cs[i + 1]), flags);
      }
      assert Wide(c, Current(now, name, c), flags);
      TableSpells(rest, name, flags, now, patchset);
      WrittenSpells(c, Current(now, name, c), flags, patchset);
      AllSpellCat(EmitOne(c, Current(now, name, c), flags, patchset), EmitAll(rest, name, flags, now, patchset), flags,
                  patchset, RecordOf(c, Current(now, name, c), flags, patchset), RecordsOf(rest, name, flags, now,
                      patchset));
    }
  }

  // ----- The session

  predicate TextName(name: bytes) {
    0 !in name && ValidUtf8(name)
  }

  ghost predicate TableOk(st: TrackState, now: VDb) {
    && AllWide(SessionEnd.Recorded(st), st.name, st.pkFlags, now)
    && 0 < |st.pkFlags| < Varint.TWO_56 && TextName(st.name)
  }

  ghost predicate TablesOk(sts: seq<TrackState>, now: VDb) {
    forall t {:trigger TableOk(sts[t], now)} :: 0 <= t < |sts| ==> TableOk(sts[t], now)
  }

  /** The tables and changes of a session, in the order they are written; tables without changes left
      do not appear. */
  function TableRecords(st: TrackState, now: VDb, patchset: bool): seq<TableChangeset> {
    var recs := RecordsOf(SessionEnd.Recorded(st), st.name, st.pkFlags, now, patchset);
    if recs == [] then [] else [TableChangeset(st.name, st.pkFlags, recs)]
  }

  function SessionRecords(sts: seq<TrackState>, n: nat, now: VDb, patchset: bool): seq<TableChangeset>
    requires n <= |sts|
  {
    if n == 0 then [] else SessionRecords(sts, n - 1, now, patchset) + TableRecords(sts[n - 1], now, patchset)
  }

  // One table is read back, whatever follows and whatever came before.
  lemma {:induction false} TableParsed(st: TrackState, now: VDb, patchset: bool, tables: seq<TableChangeset>,
                                       before: bool, rest: bytes)
    returns (after: bool)
    requires TableOk(st, now)
    ensures AllEmittable(SessionEnd.Recorded(st), st.name, now)
    ensures ParseFrom(Unparse(TableItems(st, now, patchset)) + rest, tables, before)
         == ParseFrom(rest, tables + TableRecords(st, now, patchset), after)
  {
    var cs := SessionEnd.Recorded(st);
    TableSpells(cs, st.name, st.pkFlags, now, patchset);
    var items := EmitAll(cs, st.name, st.pkFlags, now, patchset);
    var recs := RecordsOf(cs, st.name, st.pkFlags, now, patchset);
    if items == [] {
      after := before;
      assert [] + rest == rest && tables + [] == tables;
    } else {
      after := patchset;
      var h := HeaderFor(st.name, st.pkFlags, patchset);
      UnparseCons(Head(h), items);
      Assoc(h.raw, Unparse(items), rest);
      TableParses(st.name, st.pkFlags, patchset, items, recs, tables, before, rest);
    }
  }

  // ----- Table after table

  /** The bytes of a table and what they say. */
  datatype Piece = Piece(raw: bytes, recs: seq<TableChangeset>)

  type Parser = (bytes, seq<TableChangeset>, bool) -> Result<seq<TableChangeset>>

  /** The first `i` pieces: their bytes, and what they say. */
  type RawTo = nat -> bytes

  type RecsTo = nat -> seq<TableChangeset>

  ghost predicate Begins(f: RawTo, g: RecsTo) {
    f(0) == [] && g(0) == []
  }

  ghost predicate Continues(f: RawTo, g: RecsTo, i: nat, p: Piece) {
    f(i + 1) == f(i) + p.raw && g(i + 1) == g(i) + p.recs
  }

  // A piece is read, whatever follows and whatever came before.
  ghost predicate ReadsPiece(parse: Parser, p: Piece) {
    forall tables, before, rest :: ReadsOn(parse, p, tables, before, rest)
  }

  ghost predicate ReadsOn(parse: Parser, p: Piece, tables: seq<TableChangeset>, before: bool, rest: bytes) {
    ReadsTo(parse, p, tables, before, rest, false) || ReadsTo(parse, p, tables, before, rest, true)
  }

  ghost predicate ReadsTo(parse: Parser, p: Piece, tables: seq<TableChangeset>, before: bool, rest: bytes,
                          after: bool) {
    parse(p.raw + rest, tables, before) == parse(rest, tables + p.recs, after)
  }

  lemma {:induction false} PiecesRead(parse: Parser, f: RawTo, g: RecsTo, ps: seq<Piece>, n: nat, rest: bytes)
    returns (after: bool)
    requires n <= |ps| && Begins(f, g)
    requires forall i :: 0 <= i < |ps| ==> ReadsPiece(parse, ps[i]) && Continues(f, g, i, ps[i])
    ensures parse(f(n) + rest, [], false) == parse(rest, g(n), after)
    decreases n
  {
    if n == 0 {
      after := false;
      assert [] + rest == rest;
    } else {
      var p := ps[n - 1];
      var before := PiecesRead(parse, f, g, ps, n - 1, p.raw + rest);
      assert Continues(f, g, n - 1, p) && ReadsPiece(parse, p);
      Assoc(f(n - 1), p.raw, rest);
      assert ReadsOn(parse, p, g(n - 1), before, rest);
      after := ReadsTo(parse, p, g(n - 1), before, rest, true);
    }
  }

  ghost function PieceOf(st: TrackState, now: VDb, patchset: bool): Piece
    requires AllEmittable(SessionEnd.Recorded(st), st.name, now)
  {
    Piece(Unparse(TableItems(st, now, patchset)), TableRecords(st, now, patchset))
  }

  lemma {:induction false} PieceReads(st: TrackState, now: VDb, patchset: bool)
    requires TableOk(st, now) && AllEmittable(SessionEnd.Recorded(st), st.name, now)
    ensures ReadsPiece(ParseFrom, PieceOf(st, now, patchset))
  {
    forall tables, before, rest
      ensures ReadsOn(ParseFrom, PieceOf(st, now, patchset), tables, before, rest)
    {
      var after := TableParsed(st, now, patchset, tables, before, rest);
      assert ReadsTo(ParseFrom, PieceOf(st, now, patchset), tables, before, rest, after);
    }
  }

  ghost predicate IsPiece(p: Piece, st: TrackState, now: VDb, patchset: bool) {
    forall k: nat {:trigger Unfold(k)} :: Unfold(k) ==>
      AllEmittable(SessionEnd.Recorded(st), st.name, now) && p == PieceOf(st, now, patchset)
  }

  type PieceTest = (Piece, TrackState) -> bool

  ghost function TestFor(now: VDb, patchset: bool): PieceTest {
    (p, st) => IsPiece(p, st, now, patchset)
  }

  ghost predicate ArePieces(isPiece: PieceTest, ps: seq<Piece>, sts: seq<TrackState>) {
    |ps| == |sts| && forall t {:trigger ps[t]} :: 0 <= t < |sts| ==> isPiece(ps[t], sts[t])
  }

  lemma {:induction false} ItemsStep(sts: seq<TrackState>, n: nat, now: VDb, patchset: bool, p: Piece)
    requires 0 < n <= |sts| && StatesEmittable(sts, now) && IsPiece(p, sts[n - 1], now, patchset)
    ensures Unparse(SessionItems(sts, n, now, patchset)) == Unparse(SessionItems(sts, n - 1, now, patchset)) + p.raw
    ensures SessionRecords(sts, n, now, patchset) == SessionRecords(sts, n - 1, now, patchset) + p.recs
  {
    assert Unfold(0);
    UnparseCat(SessionItems(sts, n - 1, now, patchset), TableItems(sts[n - 1], now, patchset));
  }

  ghost function RawOf(sts: seq<TrackState>, now: VDb, patchset: bool): RawTo
    requires StatesEmittable(sts, now)
  {
    (n: nat) => if n <= |sts| then Unparse(SessionItems(sts, n, now, patchset)) else []
  }

  ghost function RecsOf(sts: seq<TrackState>, now: VDb, patchset: bool): RecsTo {
    (n: nat) => if n <= |sts| then SessionRecords(sts, n, now, patchset) else []
  }

  lemma {:induction false} SessionBegins(sts: seq<TrackState>, now: VDb, patchset: bool)
    requires StatesEmittable(sts, now)
    ensures Begins(RawOf(sts, now, patchset), RecsOf(sts, now, patchset))
  {
  }

  lemma {:induction false} ToState(sts: seq<TrackState>, now: VDb, patchset: bool, n: nat)
    requires n <= |sts| && StatesEmittable(sts, now)
    ensures RawOf(sts, now, patchset)(n) == Unparse(SessionItems(sts, n, now, patchset))
    ensures RecsOf(sts, now, patchset)(n) == SessionRecords(sts, n, now, patchset)
  {
  }

  lemma {:induction false} ContinuesBy(f: RawTo, g: RecsTo, i: nat, p: Piece, a: bytes, b: seq<TableChangeset>)
    requires f(i) == a && g(i) == b && f(i + 1) == a + p.raw && g(i + 1) == b + p.recs
    ensures Continues(f, g, i, p)
  {
  }

  lemma {:induction false} SessionContinues(sts: seq<TrackState>, now: VDb, patchset: bool, i: nat, p: Piece)
    requires i < |sts| && StatesEmittable(sts, now) && IsPiece(p, sts[i], now, patchset)
    ensures Continues(RawOf(sts, now, patchset), RecsOf(sts, now, patchset), i, p)
  {
    ToState(sts, now, patchset, i);
    ToState(sts, now, patchset, i + 1);
    ItemsStep(sts, i + 1, now, patchset, p);
    ContinuesBy(RawOf(sts, now, patchset), RecsOf(sts, now, patchset), i, p,
                Unparse(SessionItems(sts, i, now, patchset)), SessionRecords(sts, i, now, patchset));
  }

  ghost predicate CanWrite(st: TrackState, now: VDb) {
    forall k: nat {:trigger Unfold(k)} :: Unfold(k) ==>
      TableOk(st, now) && AllEmittable(Buckets.Flatten(st.buckets), st.name, now)
  }

  lemma {:induction false} PiecesMore(isPiece: PieceTest, ps: seq<Piece>, p: Piece, sts: seq<TrackState>)
    requires sts != [] && ArePieces(isPiece, ps, sts[..|sts| - 1]) && isPiece(p, sts[|sts| - 1])
    ensures ArePieces(isPiece, ps + [p], sts)
  {
    var n, all := |sts| - 1, ps + [p];
    forall t {:trigger all[t]} | 0 <= t < |sts|
      ensures isPiece(all[t], sts[t])
    {
      if t < n {
        assert all[t] == ps[t] && sts[..n][t] == sts[t];
      }
    }
  }

  lemma {:induction false} PiecesOf(sts: seq<TrackState>, now: VDb, patchset: bool) returns (ps: seq<Piece>)
    requires forall t :: 0 <= t < |sts| ==> CanWrite(sts[t], now)
    ensures ArePieces(TestFor(now, patchset), ps, sts) && forall t :: 0 <= t < |ps| ==> ReadsPiece(ParseFrom, ps[t])
    decreases sts
  {
    if sts == [] {
      ps := [];
    } else {
      var front := PiecesOf(sts[..|sts| - 1], now, patchset);
      var p := MakePiece(sts[|sts| - 1], now, patchset);
      PiecesMore(TestFor(now, patchset), front, p, sts);
      ps := front + [p];
    }
  }

  lemma {:induction false} MakePiece(st: TrackState, now: VDb, patchset: bool) returns (p: Piece)
    requires CanWrite(st, now)
    ensures TestFor(now, patchset)(p, st) && ReadsPiece(ParseFrom, p)
  {
    assert Unfold(0);
    p := PieceOf(st, now, patchset);
    PieceReads(st, now, patchset);
  }

  lemma {:induction false} SessionParsed(sts: seq<TrackState>, now: VDb, patchset: bool, rest: bytes)
    returns (after: bool)
    requires TablesOk(sts, now) && StatesEmittable(sts, now)
    ensures ParseFrom(RawOf(sts, now, patchset)(|sts|) + rest, [], false)
         == ParseFrom(rest, RecsOf(sts, now, patchset)(|sts|), after)
  {
    forall t | 0 <= t < |sts|
      ensures CanWrite(sts[t], now)
    {
      assert TableOk(sts[t], now) && AllEmittable(Buckets.Flatten(sts[t].buckets), sts[t].name, now);
    }
    var ps := PiecesOf(sts, now, patchset);
    after := PiecesParsed(sts, now, patchset, ps, rest);
  }

  lemma {:induction false} PiecesParsed(sts: seq<TrackState>, now: VDb, patchset: bool, ps: seq<Piece>, rest: bytes)
    returns (after: bool)
    requires StatesEmittable(sts, now) && ArePieces(TestFor(now, patchset), ps, sts)
    requires forall t :: 0 <= t < |ps| ==> ReadsPiece(ParseFrom, ps[t])
    ensures ParseFrom(RawOf(sts, now, patchset)(|sts|) + rest, [], false)
         == ParseFrom(rest, RecsOf(sts, now, patchset)(|sts|), after)
  {
    var f, g := RawOf(sts, now, patchset), RecsOf(sts, now, patchset);
    SessionBegins(sts, now, patchset);
    forall i | 0 <= i < |ps|
      ensures Continues(f, g, i, ps[i])
    {
      SessionContinues(sts, now, patchset, i, ps[i]);
    }
    after := PiecesRead(ParseFrom, f, g, ps, |ps|, rest);
  }

  /** Parsing the bytes of a session gives back exactly its tables and changes. */
  lemma {:induction false} SerializeThenParse(sts: seq<TrackState>, now: VDb, patchset: bool)
    requires TablesOk(sts, now) && StatesEmittable(sts, now)
    ensures ParseFrom(Unparse(SessionItems(sts, |sts|, now, patchset)), [], false)
         == Ok(SessionRecords(sts, |sts|, now, patchset))
  {
    var s := Unparse(SessionItems(sts, |sts|, now, patchset));
    assert s + [] == s;
    var after := SessionParsed(sts, now, patchset, []);
  }

  /** The same for every run whose tables have text names. */
  lemma {:induction false} RunThenParse(scope: Scope, sts: seq<TrackState>, shapes: Shapes, start: VDb, now: VDb,
                                        patchset: bool)
    requires SessionEnd.RunOk(scope, sts, shapes, start, now) && forall name :: name in shapes ==> ValidUtf8(name)
    ensures StatesEmittable(sts, now)
    ensures ParseFrom(Unparse(SessionItems(sts, |sts|, now, patchset)), [], false)
         == Ok(SessionRecords(sts, |sts|, now, patchset))
  {
    SessionEnd.Emits(scope, sts, shapes, start, now);
    forall t | 0 <= t < |sts|
      ensures TableOk(sts[t], now)
    {
      SessionEnd.RecordedFits(scope, sts, shapes, start, now, t);
      var st, cs := sts[t], SessionEnd.Recorded(sts[t]);
      forall i | 0 <= i < |cs|
        ensures Wide(cs[i], Current(now, st.name, cs[i]), st.pkFlags)
      {
        assert SessionMeaning.FitsIn(cs[i], st.name, st.pkFlags, start, now);
      }
    }
    SerializeThenParse(sts, now, patchset);
  }
}
